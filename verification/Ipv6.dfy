/** The IPv6 printer of the border router's web page, against a parser for the text forms of
    section 2.2 of RFC 4291. */
module Ipv6 {
  import opened Common
  import opened Text

  type byte = b: nat | b < 256
  type group = g: nat | g < 65536

  /** The 16-bit groups of an address, most significant byte first. */
  function Groups(bytes: seq<byte>): (gs: seq<group>)
    ensures |gs| == |bytes| / 2
    ensures forall i :: 0 <= i < |gs| ==> gs[i] == 256 * (bytes[2 * i] as int) + bytes[2 * i + 1]
  {
    seq(|bytes| / 2, i requires 0 <= i < |bytes| / 2 => 256 * (bytes[2 * i] as int) + bytes[2 * i + 1])
  }

  lemma GroupsDetermineBytes(a: seq<byte>, b: seq<byte>)
    requires |a| == |b| && |a| % 2 == 0 && Groups(a) == Groups(b)
    ensures a == b
  {
    forall k | 0 <= k < |a| ensures a[k] == b[k] {
      assert Groups(a)[k / 2] == Groups(b)[k / 2];
    }
  }

  // ---------- the printer ----------

  /** What the loop still prints from group i on, in phase f: 0 before the first zero group, positive
      inside the first run of zero groups, -1 after it. */
  function Emit(gs: seq<group>, i: nat, f: int): string
    requires i <= |gs|
    decreases |gs| - i
  {
    if i == |gs| then ""
    else if gs[i] == 0 && f >= 0 then (if f == 0 then "::" else "") + Emit(gs, i + 1, f + 1)
    else (if f > 0 then "" else if i > 0 then ":" else "")
         + (Digits(gs[i], 16) + Emit(gs, i + 1, if f > 0 then -1 else f))
  }

  function AddressText(gs: seq<group>): string { Emit(gs, 0, 0) }

  /** What one iteration prints, and its next phase. */
  function Piece(g: group, i: nat, f: int): (string, int) {
    if g == 0 && f >= 0 then (if f == 0 then "::" else "", f + 1)
    else ((if f > 0 then "" else if i > 0 then ":" else "") + Digits(g, 16), if f > 0 then -1 else f)
  }

  lemma EmitEnd(gs: seq<group>, f: int)
    ensures Emit(gs, |gs|, f) == ""
  {
  }

  lemma {:induction false} EmitByPieces(gs: seq<group>, i: nat, f: int)
    requires i < |gs|
    ensures Emit(gs, i, f) == Piece(gs[i], i, f).0 + Emit(gs, i + 1, Piece(gs[i], i, f).1)
  {
    if gs[i] != 0 || f < 0 {
      var sep := if f > 0 then "" else if i > 0 then ":" else "";
      var tail := Emit(gs, i + 1, if f > 0 then -1 else f);
      assert sep + (Digits(gs[i], 16) + tail) == (sep + Digits(gs[i], 16)) + tail;
    }
  }

  /** The characters of a printed address: digits, lower-case hexadecimal letters and colons. */
  predicate Printable(s: string) {
    forall k :: 0 <= k < |s| ==> '0' <= s[k] <= '9' || 'a' <= s[k] <= 'f' || s[k] == ':'
  }

  lemma {:induction false} DigitsArePrintable(n: nat)
    ensures Printable(Digits(n, 16))
  {
    if n >= 16 {
      DigitsArePrintable(n / 16);
    }
  }

  lemma {:induction false} EmitIsPrintable(gs: seq<group>, i: nat, f: int)
    requires i <= |gs|
    ensures Printable(Emit(gs, i, f))
    decreases |gs| - i
  {
    hide Digits;
    if i < |gs| {
      DigitsArePrintable(gs[i]);
      EmitIsPrintable(gs, i + 1, Piece(gs[i], i, f).1);
    }
  }

  lemma AddressIsPrintable(gs: seq<group>)
    ensures Printable(AddressText(gs))
  {
    EmitIsPrintable(gs, 0, 0);
  }

  // ---------- the parser ----------

  /** Where the first "::" stands. */
  function FindDouble(s: string): (r: Option<nat>)
    ensures r.Some? ==> r.value + 2 <= |s|
  {
    if |s| < 2 then None
    else if s[0] == ':' && s[1] == ':' then Some(0)
    else match FindDouble(s[1..])
         case None => None
         case Some(k) => Some(k + 1)
  }

  /** Groups of one to four hexadecimal digits, separated by single colons; none in an empty text. */
  function ParseGroups(s: string): Option<seq<group>> {
    if s == "" then Some([]) else
      var w := Span(s, 16);
      if w < 1 || w > 4 || Value(s[..w], 16) >= 65536 then None
      else if w == |s| then Some([Value(s[..w], 16)])
      else if s[w] != ':' || w + 1 == |s| then None
      else match ParseGroups(s[w + 1..])
           case None => None
           case Some(rest) => Some([Value(s[..w], 16)] + rest)
  }

  function Zeros(n: nat): seq<group> { seq(n, i => 0) }

  /** The two hexadecimal text forms for an address of n groups: all groups written out, or one "::"
      for one or more groups of zeros. */
  function Parse(s: string, n: nat): Option<seq<group>> {
    match FindDouble(s)
    case None =>
      var all := ParseGroups(s);
      if all.Some? && |all.value| == n then all else None
    case Some(k) =>
      var left, right := ParseGroups(s[..k]), ParseGroups(s[k + 2..]);
      if left.Some? && right.Some? && |left.value| + |right.value| < n
      then Some(left.value + Zeros(n - |left.value| - |right.value|) + right.value)
      else None
  }

  // ---------- the shape of the printed text ----------

  function Rest(gs: seq<group>): string {
    if gs == [] then "" else ":" + (Digits(gs[0], 16) + Rest(gs[1..]))
  }

  function Join(gs: seq<group>): string {
    if gs == [] then "" else Digits(gs[0], 16) + Rest(gs[1..])
  }

  lemma {:induction false} EmitAfterRun(gs: seq<group>, i: nat)
    requires 0 < i <= |gs|
    ensures Emit(gs, i, -1) == Rest(gs[i..])
    decreases |gs| - i
  {
    if i < |gs| {
      EmitAfterRun(gs, i + 1);
      assert gs[i..][1..] == gs[i + 1..];
    }
  }

  /** The first index from i on whose group is not zero. */
  function RunEnd(gs: seq<group>, i: nat): (k: nat)
    requires i <= |gs|
    ensures i <= k <= |gs| && forall j :: i <= j < k ==> gs[j] == 0
    decreases |gs| - i
  {
    if i < |gs| && gs[i] == 0 then RunEnd(gs, i + 1) else i
  }

  lemma {:induction false} EmitInRun(gs: seq<group>, i: nat, f: int)
    requires 0 < i <= |gs| && f > 0
    ensures Emit(gs, i, f) == Join(gs[RunEnd(gs, i)..])
    decreases |gs| - i
  {
    if i < |gs| {
      if gs[i] == 0 {
        EmitInRun(gs, i + 1, f + 1);
      } else {
        EmitAfterRun(gs, i + 1);
        assert gs[i..][1..] == gs[i + 1..];
      }
    }
  }

  /** The first index whose group is zero. */
  function FirstZero(gs: seq<group>, i: nat): (k: nat)
    requires i <= |gs|
    ensures i <= k <= |gs| && (k < |gs| ==> gs[k] == 0)
    decreases |gs| - i
  {
    if i < |gs| && gs[i] != 0 then FirstZero(gs, i + 1) else i
  }

  lemma {:induction false} EmitBeforeRun(gs: seq<group>, i: nat)
    requires 0 < i <= |gs|
    ensures var p := FirstZero(gs, i);
            Emit(gs, i, 0) == Rest(gs[i..p]) + Emit(gs, p, 0)
    decreases |gs| - i
  {
    var p := FirstZero(gs, i);
    if i < p {
      EmitBeforeRun(gs, i + 1);
      assert gs[i..p][1..] == gs[i + 1..p];
    } else {
      assert gs[i..p] == [];
      assert Rest(gs[i..p]) + Emit(gs, p, 0) == Emit(gs, p, 0);
    }
  }

  lemma HeadShape(gs: seq<group>)
    ensures var p := FirstZero(gs, 0);
            AddressText(gs) == Join(gs[..p]) + Emit(gs, p, 0)
  {
    hide Digits;
    var p := FirstZero(gs, 0);
    if p > 0 {
      EmitBeforeRun(gs, 1);
      assert gs[..p][1..] == gs[1..p];
    } else {
      assert Join(gs[..0]) == "";
    }
  }

  lemma {:induction false} TailShape(gs: seq<group>)
    ensures var p := FirstZero(gs, 0);
            Emit(gs, p, 0) == if p == |gs| then "" else "::" + Join(gs[RunEnd(gs, p)..])
  {
    hide Digits;
    var p := FirstZero(gs, 0);
    if p < |gs| {
      EmitInRun(gs, p + 1, 1);
    }
  }

  /** The printer writes all groups if none is zero, and otherwise "::" in place of the first run. */
  lemma Shape(gs: seq<group>)
    ensures var p := FirstZero(gs, 0);
            AddressText(gs) == if p == |gs| then Join(gs)
                               else Join(gs[..p]) + ("::" + Join(gs[RunEnd(gs, p)..]))
  {
    hide AddressText, Emit, Join;
    HeadShape(gs);
    TailShape(gs);
    if FirstZero(gs, 0) == |gs| {
      assert gs[..|gs|] == gs;
    }
  }

  // ---------- hexadecimal groups read back ----------

  lemma HexLength(g: group)
    ensures 1 <= |Digits(g, 16)| <= 4
  {
    assert g / 16 < 4096 && g / 16 / 16 < 256 && g / 16 / 16 / 16 < 16;
    assert |Digits(g / 16 / 16 / 16, 16)| == 1;
    assert |Digits(g / 16 / 16, 16)| <= 2;
    assert |Digits(g / 16, 16)| <= 3;
  }

  lemma {:induction false} LastTokenParses(h: string, g: group)
    requires IsNumeral(h, 16) && 1 <= |h| <= 4 && Value(h, 16) == g
    ensures ParseGroups(h) == Some([g])
  {
    hide Value, Span;
    SpanStops(h, "", 16);
    assert h + "" == h;
  }

  lemma {:induction false} FirstTokenParses(h: string, g: group, t: string)
    requires IsNumeral(h, 16) && 1 <= |h| <= 4 && Value(h, 16) == g
    requires t != "" && ParseGroups(t).Some?
    ensures ParseGroups(h + (":" + t)) == Some([g] + ParseGroups(t).value)
  {
    hide Value, Span;
    SpanStops(h, ":" + t, 16);
    assert (h + (":" + t))[|h| + 1..] == t;
  }

  lemma {:induction false} JoinParses(gs: seq<group>)
    ensures ParseGroups(Join(gs)) == Some(gs)
  {
    hide Digits, Value, ParseGroups;
    if gs == [] {
      NothingParses();
    } else {
      var tail := gs[1..];
      assert [gs[0]] + tail == gs;
      DigitsRoundTrip(gs[0], 16);
      HexLength(gs[0]);
      if tail == [] {
        assert Join(gs) == Digits(gs[0], 16) + "" == Digits(gs[0], 16);
        assert gs == [gs[0]];
        LastTokenParses(Digits(gs[0], 16), gs[0]);
      } else {
        JoinParses(tail);
        DigitsRoundTrip(tail[0], 16);
        FirstTokenParses(Digits(gs[0], 16), gs[0], Join(tail));
        assert Rest(tail) == ":" + Join(tail);
      }
    }
  }

  lemma NothingParses()
    ensures ParseGroups("") == Some([])
  {
  }

  // ---------- colons ----------

  predicate DoubleAt(s: string, k: int) { 0 <= k < |s| - 1 && s[k] == ':' && s[k + 1] == ':' }

  predicate NoDouble(s: string) { forall k :: 0 <= k < |s| - 1 ==> !DoubleAt(s, k) }

  lemma {:induction false} FindDoubleFirst(s: string, k: nat)
    requires DoubleAt(s, k) && forall j :: 0 <= j < k ==> !DoubleAt(s, j)
    ensures FindDouble(s) == Some(k)
  {
    if k > 0 {
      assert !DoubleAt(s, 0);
      forall j | 0 <= j < k - 1 ensures !DoubleAt(s[1..], j) {
        assert !DoubleAt(s, j + 1);
      }
      FindDoubleFirst(s[1..], k - 1);
    }
  }

  lemma {:induction false} FindDoubleNone(s: string)
    requires NoDouble(s)
    ensures FindDouble(s) == None
  {
    if |s| >= 2 {
      assert !DoubleAt(s, 0);
      forall j | 0 <= j < |s[1..]| - 1 ensures !DoubleAt(s[1..], j) {
        assert !DoubleAt(s, j + 1);
      }
      FindDoubleNone(s[1..]);
    }
  }

  /** Digits, and then nothing or a single colon and more digits. */
  predicate Plain(s: string) {
    s != "" ==> s[0] != ':' && s[|s| - 1] != ':' && NoDouble(s)
  }

  lemma NumeralHasNoColon(s: string)
    requires IsNumeral(s, 16)
    ensures forall k :: 0 <= k < |s| ==> s[k] != ':'
  {
    forall k | 0 <= k < |s| ensures s[k] != ':' {
      assert DigitVal(s[k]) < 16;
    }
  }

  lemma {:induction false} RestIsPlainTail(gs: seq<group>)
    ensures var r := Rest(gs);
            r != "" ==> |r| >= 2 && r[0] == ':' && r[1] != ':' && r[|r| - 1] != ':' && NoDouble(r)
  {
    hide Digits;
    if gs != [] {
      var h, tail := Digits(gs[0], 16), Rest(gs[1..]);
      RestIsPlainTail(gs[1..]);
      DigitsRoundTrip(gs[0], 16);
      NumeralHasNoColon(h);
      var r := Rest(gs);
      forall k | 0 <= k < |r| - 1 ensures !DoubleAt(r, k) {
        if k > |h| {
          assert !DoubleAt(tail, k - 1 - |h|);
          assert r[k] == tail[k - 1 - |h|];
        }
      }
    }
  }

  lemma JoinIsPlain(gs: seq<group>)
    ensures Plain(Join(gs))
  {
    hide Digits;
    if gs != [] {
      var h, tail := Digits(gs[0], 16), Rest(gs[1..]);
      DigitsRoundTrip(gs[0], 16);
      NumeralHasNoColon(h);
      RestIsPlainTail(gs[1..]);
      var s := Join(gs);
      forall k | 0 <= k < |s| - 1 ensures !DoubleAt(s, k) {
        if k >= |h| {
          assert !DoubleAt(tail, k - |h|);
        }
      }
    }
  }

  lemma OneDouble(a: string, b: string, k: int)
    requires Plain(a) && Plain(b)
    ensures DoubleAt(a + ("::" + b), k) <==> k == |a|
  {
    var s := a + ("::" + b);
    if 0 <= k < |a| - 1 {
      assert !DoubleAt(a, k);
    } else if |a| + 2 <= k < |s| - 1 {
      assert !DoubleAt(b, k - |a| - 2);
      assert s[k] == b[k - |a| - 2] && s[k + 1] == b[k - |a| - 1];
    }
  }

  // ---------- the theorems ----------

  /** A "::" between two plain lists of groups stands for the zeros that are missing. */
  lemma DoubleFills(pre: seq<group>, post: seq<group>, zeros: nat)
    requires zeros >= 1
    ensures Parse(Join(pre) + ("::" + Join(post)), |pre| + zeros + |post|) == Some(pre + Zeros(zeros) + post)
  {
    hide ParseGroups, FindDouble, Join;
    var a, b := Join(pre), Join(post);
    var s := a + ("::" + b);
    JoinIsPlain(pre);
    JoinIsPlain(post);
    forall k ensures DoubleAt(s, k) <==> k == |a| {
      OneDouble(a, b, k);
    }
    FindDoubleFirst(s, |a|);
    JoinParses(pre);
    JoinParses(post);
    assert s[..|a|] == a && s[|a| + 2..] == b;
  }

  /** Parsing the printed text of any number of groups gives back exactly those groups. */
  lemma PrintParse(gs: seq<group>)
    ensures Parse(AddressText(gs), |gs|) == Some(gs)
  {
    hide ParseGroups, FindDouble, Join, AddressText;
    Shape(gs);
    var p := FirstZero(gs, 0);
    if p == |gs| {
      JoinIsPlain(gs);
      FindDoubleNone(Join(gs));
      JoinParses(gs);
    } else {
      hide Parse;
      var q := RunEnd(gs, p);
      FirstRunIsNotEmpty(gs);
      DoubleFills(gs[..p], gs[q..], q - p);
      assert gs[..p] + Zeros(q - p) + gs[q..] == gs;
    }
  }

  lemma FirstRunIsNotEmpty(gs: seq<group>)
    ensures FirstZero(gs, 0) < |gs| ==> RunEnd(gs, FirstZero(gs, 0)) > FirstZero(gs, 0)
  {
  }

  /** Two addresses of equally many bytes that print alike are the same address. */
  lemma PrintIsInjective(a: seq<byte>, b: seq<byte>)
    requires |a| == |b| && |a| % 2 == 0
    requires AddressText(Groups(a)) == AddressText(Groups(b))
    ensures a == b
  {
    hide Parse, AddressText;
    PrintParse(Groups(a));
    PrintParse(Groups(b));
    GroupsDetermineBytes(a, b);
  }

  /** "::" appears at most once, and exactly when some group is zero. */
  lemma DoubleColonIffZeroGroup(gs: seq<group>)
    ensures (exists k :: DoubleAt(AddressText(gs), k)) <==> exists i :: 0 <= i < |gs| && gs[i] == 0
    ensures forall j, k :: DoubleAt(AddressText(gs), j) && DoubleAt(AddressText(gs), k) ==> j == k
  {
    hide Join, AddressText;
    Shape(gs);
    var p := FirstZero(gs, 0);
    if p == |gs| {
      JoinIsPlain(gs);
      NoneBeforeFirstZero(gs, 0);
      assert forall k :: !DoubleAt(Join(gs), k);
    } else {
      JoinIsPlain(gs[..p]);
      JoinIsPlain(gs[RunEnd(gs, p)..]);
      forall k ensures DoubleAt(AddressText(gs), k) <==> k == |Join(gs[..p])| {
        OneDouble(Join(gs[..p]), Join(gs[RunEnd(gs, p)..]), k);
      }
      assert DoubleAt(AddressText(gs), |Join(gs[..p])|);
      assert gs[p] == 0;
    }
  }

  lemma {:induction false} NoneBeforeFirstZero(gs: seq<group>, i: nat)
    requires i <= |gs|
    ensures forall j :: i <= j < FirstZero(gs, i) ==> gs[j] != 0
    decreases |gs| - i
  {
    if i < |gs| && gs[i] != 0 {
      NoneBeforeFirstZero(gs, i + 1);
    }
  }

  lemma {:induction false} RestLength(gs: seq<group>)
    ensures |Rest(gs)| <= 5 * |gs|
  {
    hide Digits;
    if gs != [] {
      HexLength(gs[0]);
      RestLength(gs[1..]);
    }
  }

  lemma JoinLength(gs: seq<group>)
    ensures gs != [] ==> |Join(gs)| <= 5 * |gs| - 1
  {
    hide Digits;
    if gs != [] {
      HexLength(gs[0]);
      RestLength(gs[1..]);
    }
  }

  /** n groups print to at most 5n - 1 characters: 39 for an IPv6 address. */
  lemma TextLength(gs: seq<group>)
    requires gs != []
    ensures |AddressText(gs)| <= 5 * |gs| - 1
  {
    hide Join, AddressText;
    Shape(gs);
    JoinLength(gs);
    var p := FirstZero(gs, 0);
    if p < |gs| {
      FirstRunIsNotEmpty(gs);
      JoinLength(gs[..p]);
      JoinLength(gs[RunEnd(gs, p)..]);
      EmptyJoin();
    }
  }

  lemma EmptyJoin()
    ensures Join([]) == ""
  {
  }
}
