/** The line buffer of the border router's web page and the lines that are built in it. */
module WebServer {
  import opened Text
  import opened Ipv6

  const BUFFER_SIZE := 256

  lemma LongDecimal(n: nat)
    requires n < 0x1_0000_0000_0000_0000
    ensures |Digits(n, 10)| <= 20
  {
    assert Pow10(4) == 10000 by { assert Pow10(2) == 100; }
    assert Pow10(8) == 1_0000_0000 by { assert Pow10(6) == 1000000; }
    assert Pow10(12) == 1_0000_0000_0000 by { assert Pow10(10) == 100_0000_0000; }
    assert Pow10(16) == 1_0000_0000_0000_0000 by { assert Pow10(14) == 100_0000_0000_0000; }
    assert Pow10(20) == 1_0000_0000_0000_0000_0000 by { assert Pow10(18) == 100_0000_0000_0000_0000; }
    DecimalLength(n, 20);
  }

  lemma AddressLength(addr: seq<byte>)
    requires |addr| == 16
    ensures |AddressText(Groups(addr))| <= 39
  {
    TextLength(Groups(addr));
  }

  lemma Reassociate(a: string, b: string, c: string)
    ensures a + (b + c) == (a + b) + c
  {
  }

  /** `buf` and `blen`. */
  class LineBuffer {
    const buf: array<char>
    var blen: nat

    constructor ()
      ensures Valid() && blen == 0 && fresh(buf)
    {
      buf := new char[BUFFER_SIZE](_ => '\0');
      blen := 0;
    }

    ghost predicate Valid()
      reads this
    {
      buf.Length == BUFFER_SIZE
    }

    /** What has been written since the last SEND, if nothing was cut. */
    ghost function Line(): string
      requires Valid() && blen < BUFFER_SIZE
      reads this, buf
    {
      buf[..blen]
    }

    /** `blen += snprintf(&buf[blen], sizeof(buf) - blen, ...)`: writes what fits and a terminator,
        but advances by the full length. */
    method Add(s: string)
      requires Valid() && blen < BUFFER_SIZE
      modifies `blen, buf
      ensures Valid() && blen == old(blen) + |s|
      ensures blen < BUFFER_SIZE ==> Line() == old(Line()) + s && buf[blen] == '\0'
      ensures blen >= BUFFER_SIZE ==> buf[..BUFFER_SIZE - 1] == (old(Line()) + s)[..BUFFER_SIZE - 1]
    {
      var start := blen;
      var room := BUFFER_SIZE - 1 - start;
      var n := if |s| < room then |s| else room;
      ghost var line := Line();
      for i := 0 to n
        invariant blen == start && buf[..start + i] == line + s[..i]
      {
        buf[start + i] := s[i];
        assert buf[..start + i + 1] == buf[..start + i] + [s[i]];
      }
      buf[start + n] := '\0';
      assert buf[..start + n] == line + s[..n];
      blen := start + |s|;
    }

    method Send() returns (sent: string)
      requires Valid() && blen < BUFFER_SIZE
      modifies `blen
      ensures Valid() && blen == 0 && sent == old(Line())
    {
      sent := buf[..blen];
      blen := 0;
    }

    /** An ADD whose text fits. */
    method AddFitting(s: string)
      requires Valid() && blen + |s| < BUFFER_SIZE
      modifies `blen, buf
      ensures Valid() && blen == old(blen) + |s| && Line() == old(Line()) + s
    {
      Add(s);
    }

    /** One iteration of the address loop. */
    method AddGroup(a: group, i: nat, ghost k: nat, f: int) returns (f': int)
      requires Valid() && i == 2 * k && blen + |Piece(a, k, f).0| < BUFFER_SIZE
      modifies `blen, buf
      ensures Valid() && blen < BUFFER_SIZE && Line() == old(Line()) + Piece(a, k, f).0
      ensures f' == Piece(a, k, f).1
    {
      hide Digits;
      f' := f;
      if a == 0 && f' >= 0 {
        f' := f' + 1;
        if f' == 1 {
          AddFitting("::");
        } else {
          assert Line() + "" == Line();
        }
      } else {
        ghost var line := Line();
        ghost var sep := if f > 0 then "" else if i > 0 then ":" else "";
        if f' > 0 {
          f' := -1;
        } else if i > 0 {
          AddFitting(":");
        }
        assert Line() == line + sep;
        AddFitting(Digits(a, 16));
        assert line + sep + Digits(a, 16) == line + (sep + Digits(a, 16));
      }
    }

    method IpaddrAdd(addr: seq<byte>)
      requires Valid() && |addr| % 2 == 0 && blen + |AddressText(Groups(addr))| < BUFFER_SIZE
      modifies `blen, buf
      ensures Valid() && blen < BUFFER_SIZE && Line() == old(Line()) + AddressText(Groups(addr))
    {
      ghost var gs := Groups(addr);
      ghost var whole := Line() + AddressText(gs);
      assert whole == Line() + Emit(gs, 0, 0);
      hide Piece, Emit, AddressText, Groups;
      var i, f := 0, 0;
      ghost var k := 0;
      while i < |addr|
        invariant 0 <= i <= |addr| && i == 2 * k && blen < BUFFER_SIZE
        invariant Line() + Emit(gs, k, f) == whole
      {
        var a: group := 256 * (addr[i] as int) + addr[i + 1];
        assert a == gs[k];
        ghost var line, piece, rest := Line(), Piece(a, k, f).0, Emit(gs, k + 1, Piece(a, k, f).1);
        EmitByPieces(gs, k, f);
        Reassociate(line, piece, rest);
        f := AddGroup(a, i, k, f);
        i, k := i + 2, k + 1;
      }
      EmitEnd(gs, f);
      assert Line() + "" == Line();
    }

    // ---------- the lines of the page ----------

    method NeighborLine(addr: seq<byte>) returns (sent: string)
      requires Valid() && blen == 0 && |addr| == 16
      modifies `blen, buf
      ensures Valid() && blen == 0
      ensures sent == "    <li>" + AddressText(Groups(addr)) + "</li>\n"
    {
      hide AddressText, Groups;
      AddressLength(addr);
      AddFitting("    <li>");
      IpaddrAdd(addr);
      AddFitting("</li>\n");
      sent := Send();
    }

    /** The common end of a route's and a link's line. */
    method EndLine(lifetime: nat) returns (sent: string)
      requires Valid() && lifetime < 0x1_0000_0000_0000_0000 && blen < 200
      modifies `blen, buf
      ensures Valid() && blen == 0
      ensures sent == old(Line()) + (") " + Digits(lifetime, 10) + "s") + "</li>\n"
    {
      hide Digits;
      LongDecimal(lifetime);
      AddFitting(") " + Digits(lifetime, 10) + "s");
      AddFitting("</li>\n");
      sent := Send();
    }

    method RouteLine(addr: seq<byte>, length: nat, via: seq<byte>, lifetime: nat) returns (sent: string)
      requires Valid() && blen == 0 && |addr| == 16 && |via| == 16
      requires length < 256 && lifetime < 0x1_0000_0000_0000_0000
      modifies `blen, buf
      ensures Valid() && blen == 0
      ensures sent == "    <li>" + AddressText(Groups(addr)) + ("/" + Digits(length, 10) + " (via ")
                      + AddressText(Groups(via)) + (") " + Digits(lifetime, 10) + "s") + "</li>\n"
    {
      hide AddressText, Groups, Digits;
      AddressLength(addr);
      AddressLength(via);
      LongDecimal(length);
      AddFitting("    <li>");
      IpaddrAdd(addr);
      AddFitting("/" + Digits(length, 10) + " (via ");
      IpaddrAdd(via);
      sent := EndLine(lifetime);
    }

    method LinkLine(child: seq<byte>, parent: seq<byte>, lifetime: nat) returns (sent: string)
      requires Valid() && blen == 0 && |child| == 16 && |parent| == 16
      requires lifetime < 0x1_0000_0000
      modifies `blen, buf
      ensures Valid() && blen == 0
      ensures sent == "    <li>" + AddressText(Groups(child)) + " (parent: " + AddressText(Groups(parent))
                      + (") " + Digits(lifetime, 10) + "s") + "</li>\n"
    {
      hide AddressText, Groups, Digits;
      AddressLength(child);
      AddressLength(parent);
      AddFitting("    <li>");
      IpaddrAdd(child);
      AddFitting(" (parent: ");
      IpaddrAdd(parent);
      sent := EndLine(lifetime);
    }
  }
}
