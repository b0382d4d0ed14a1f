/** Bech32 strings (Encode and Decode of src/bech32.cpp): the loops of the source proved against their specification,
    and the two round trips. */
module Bech32Text {
  import opened Bech32
  import opened Bech32Errors

  const NONE: bv8 := 0xFF
  const SEPARATOR: bv8 := 49

  /* ---- Character set ---- */

  /** CHARSET: "qpzry9x8gf2tvdw0s3jn54khce6mua7l". */
  function Char(v: Sym): bv8 {
    if v == 0 then 113
    else if v == 1 then 112
    else if v == 2 then 122
    else if v == 3 then 114
    else if v == 4 then 121
    else if v == 5 then 57
    else if v == 6 then 120
    else if v == 7 then 56
    else if v == 8 then 103
    else if v == 9 then 102
    else if v == 10 then 50
    else if v == 11 then 116
    else if v == 12 then 118
    else if v == 13 then 100
    else if v == 14 then 119
    else if v == 15 then 48
    else if v == 16 then 115
    else if v == 17 then 51
    else if v == 18 then 106
    else if v == 19 then 110
    else if v == 20 then 53
    else if v == 21 then 52
    else if v == 22 then 107
    else if v == 23 then 104
    else if v == 24 then 99
    else if v == 25 then 101
    else if v == 26 then 54
    else if v == 27 then 109
    else if v == 28 then 117
    else if v == 29 then 97
    else if v == 30 then 55
    else 108
  }

  predicate IsUpper(c: bv8) { 65 <= c <= 90 }
  predicate IsLower(c: bv8) { 97 <= c <= 122 }
  predicate IsPrintable(c: bv8) { 33 <= c <= 126 }

  function LowerCase(c: bv8): bv8 { if IsUpper(c) then c - 65 + 97 else c }

  function RevLower(c: bv8): bv8 {
    if c == 113 then 0
    else if c == 112 then 1
    else if c == 122 then 2
    else if c == 114 then 3
    else if c == 121 then 4
    else if c == 57 then 5
    else if c == 120 then 6
    else if c == 56 then 7
    else if c == 103 then 8
    else if c == 102 then 9
    else if c == 50 then 10
    else if c == 116 then 11
    else if c == 118 then 12
    else if c == 100 then 13
    else if c == 119 then 14
    else if c == 48 then 15
    else if c == 115 then 16
    else if c == 51 then 17
    else if c == 106 then 18
    else if c == 110 then 19
    else if c == 53 then 20
    else if c == 52 then 21
    else if c == 107 then 22
    else if c == 104 then 23
    else if c == 99 then 24
    else if c == 101 then 25
    else if c == 54 then 26
    else if c == 109 then 27
    else if c == 117 then 28
    else if c == 97 then 29
    else if c == 55 then 30
    else if c == 108 then 31
    else NONE
  }

  /** CHARSET_REV, which accepts both cases. */
  function Rev(c: bv8): bv8 { RevLower(LowerCase(c)) }

  predicate InCharset(c: bv8) { Rev(c) != NONE }

  lemma RevSmall(c: bv8)
    ensures InCharset(c) ==> Rev(c) < 32
  {
  }

  function SymOf(c: bv8): Sym
    requires InCharset(c)
  {
    RevSmall(c);
    Rev(c) as bv5
  }

  lemma CharPlain(v: Sym)
    ensures Char(v) != SEPARATOR && IsPrintable(Char(v)) && !IsUpper(Char(v))
  {
  }

  lemma CharBackLow(v: Sym)
    requires v < 16
    ensures RevLower(Char(v)) == v as bv8
  {
  }

  lemma CharBackHigh(v: Sym)
    requires v >= 16
    ensures RevLower(Char(v)) == v as bv8
  {
  }

  lemma CharBack(v: Sym)
    ensures RevLower(Char(v)) == v as bv8
  {
    hide Char, RevLower;
    if v < 16 {
      CharBackLow(v);
    } else {
      CharBackHigh(v);
    }
  }

  lemma CharRev(v: Sym)
    ensures InCharset(Char(v)) && SymOf(Char(v)) == v
    ensures Char(v) != SEPARATOR && IsPrintable(Char(v)) && !IsUpper(Char(v))
  {
    hide Char, RevLower;
    CharPlain(v);
    CharBack(v);
  }

  lemma RevChar(c: bv8)
    requires InCharset(c)
    ensures Char(SymOf(c)) == LowerCase(c)
  {
  }

  /* ---- Strings ---- */

  datatype Result = Fail | Ok(hrp: Text, values: seq<Sym>)

  function Chars(v: seq<Sym>): Text { seq(|v|, i requires 0 <= i < |v| => Char(v[i])) }

  function Lower(s: Text): Text { seq(|s|, i requires 0 <= i < |s| => LowerCase(s[i])) }

  predicate Mixed(s: Text) { (exists i | 0 <= i < |s| :: IsLower(s[i])) && (exists i | 0 <= i < |s| :: IsUpper(s[i])) }
  predicate Printable(s: Text) { forall i | 0 <= i < |s| :: IsPrintable(s[i]) }
  predicate NoUpper(s: Text) { forall i | 0 <= i < |s| :: !IsUpper(s[i]) }
  predicate AllSymbols(s: Text) { forall i | 0 <= i < |s| :: InCharset(s[i]) }

  function Symbols(s: Text): seq<Sym>
    requires AllSymbols(s)
  {
    seq(|s|, i requires 0 <= i < |s| => SymOf(s[i]))
  }

  /** The last separator, or -1. */
  function LastOne(s: Text): (p: int)
    ensures -1 <= p < |s| && (p >= 0 ==> s[p] == SEPARATOR) && forall i | p < i < |s| :: s[i] != SEPARATOR
  {
    if s == [] then -1 else if s[|s| - 1] == SEPARATOR then |s| - 1 else LastOne(s[..|s| - 1])
  }

  lemma LastOneIs(s: Text, p: nat)
    requires p < |s| && s[p] == SEPARATOR && forall i | p < i < |s| :: s[i] != SEPARATOR
    ensures LastOne(s) == p
  {
    hide LastOne;
    var q := LastOne(s);
    assert q >= p && q <= p;
  }

  function Encoded(hrp: Text, values: seq<Sym>): Text { hrp + [SEPARATOR] + Chars(values + Checksum(hrp, values)) }

  /** The length rules: 140 characters in all, 1 to 83 before the separator, at least 6 after it. */
  predicate Shaped(s: Text) { |s| <= 140 && 0 < LastOne(s) <= 83 && LastOne(s) + 7 <= |s| }

  function Decoded(s: Text): Result {
    if !Printable(s) || Mixed(s) || !Shaped(s) then Fail
    else
      var tail := s[LastOne(s) + 1..];
      if !AllSymbols(tail) then Fail
      else
        var hrp, values := Lower(s[..LastOne(s)]), Symbols(tail);
        if VerifyChecksum(hrp, values) then Ok(hrp, values[..|values| - 6]) else Fail
  }

  /* ---- Round trips ---- */

  lemma CharsSymbols(v: seq<Sym>)
    ensures AllSymbols(Chars(v)) && Symbols(Chars(v)) == v && Printable(Chars(v)) && NoUpper(Chars(v))
    ensures forall i | 0 <= i < |v| :: Chars(v)[i] != SEPARATOR
  {
    hide Char, SymOf, InCharset, IsPrintable, IsUpper;
    forall i | 0 <= i < |v|
      ensures InCharset(Char(v[i])) && SymOf(Char(v[i])) == v[i] && Char(v[i]) != SEPARATOR && IsPrintable(Char(v[i]))
              && !IsUpper(Char(v[i]))
    {
      CharRev(v[i]);
    }
  }

  lemma SymbolsChars(s: Text)
    requires AllSymbols(s)
    ensures Chars(Symbols(s)) == Lower(s)
  {
    hide Char, SymOf, InCharset, LowerCase;
    forall i | 0 <= i < |s| ensures Char(SymOf(s[i])) == LowerCase(s[i]) {
      RevChar(s[i]);
    }
  }

  lemma LowerPlain(s: Text)
    ensures NoUpper(s) <==> Lower(s) == s
  {
    forall i | 0 <= i < |s| ensures !IsUpper(s[i]) <==> LowerCase(s[i]) == s[i] {
    }
    if Lower(s) == s {
      forall i | 0 <= i < |s| ensures !IsUpper(s[i]) {
        assert Lower(s)[i] == s[i];
      }
    }
  }

  /** The human-readable parts that survive: 1 to 83 printable characters, none upper case. */
  predicate GoodHrp(hrp: Text) { 0 < |hrp| <= 83 && Printable(hrp) && NoUpper(hrp) }

  lemma EncodedParts(hrp: Text, values: seq<Sym>)
    ensures var s := Encoded(hrp, values);
            && |s| == |hrp| + 7 + |values| && LastOne(s) == |hrp|
            && s[..|hrp|] == hrp && s[|hrp| + 1..] == Chars(values + Checksum(hrp, values))
  {
    hide Char, Checksum, LastOne;
    var v := values + Checksum(hrp, values);
    SixSymbols(hrp, values);
    CharsSymbols(v);
    var s := Encoded(hrp, values);
    forall i | |hrp| < i < |s| ensures s[i] != SEPARATOR {
      assert s[i] == Chars(v)[i - |hrp| - 1];
    }
    LastOneIs(s, |hrp|);
  }

  lemma SixSymbols(hrp: Text, values: seq<Sym>)
    ensures |Checksum(hrp, values)| == 6
  {
    hide PolyMod, Xor;
  }

  lemma EncodedPlain(hrp: Text, values: seq<Sym>)
    ensures Printable(Encoded(hrp, values)) <==> Printable(hrp)
    ensures NoUpper(hrp) ==> NoUpper(Encoded(hrp, values))
  {
    hide Char, Checksum, IsPrintable, IsUpper;
    var v := values + Checksum(hrp, values);
    CharsSymbols(v);
    Separator();
    var s := Encoded(hrp, values);
    if Printable(s) {
      forall i | 0 <= i < |hrp| ensures IsPrintable(hrp[i]) {
        assert s[i] == hrp[i];
      }
    }
  }

  lemma Separator()
    ensures IsPrintable(SEPARATOR) && !IsUpper(SEPARATOR)
  {
  }

  lemma NotMixed(s: Text)
    requires NoUpper(s)
    ensures !Mixed(s)
  {
    hide IsUpper, IsLower;
  }

  /** Decoding what was encoded gives it back exactly when the human-readable part is good and the whole is within
      the length limit. */
  lemma DecodeEncode(hrp: Text, values: seq<Sym>)
    ensures Decoded(Encoded(hrp, values)) == Ok(hrp, values) <==> GoodHrp(hrp) && |hrp| + 7 + |values| <= 140
  {
    hide Chars, Symbols, Checksum, LastOne, Lower, Printable, NoUpper, Mixed, Encoded, VerifyChecksum, AllSymbols;
    var s := Encoded(hrp, values);
    var v := values + Checksum(hrp, values);
    EncodedParts(hrp, values);
    EncodedPlain(hrp, values);
    CharsSymbols(v);
    SixSymbols(hrp, values);
    ChecksumVerifies(hrp, values);
    LowerPlain(hrp);
    assert v[..|v| - 6] == values;
    if NoUpper(s) {
      NotMixed(s);
    }
  }

  /** Encoding what was decoded gives the string back, in lower case. */
  lemma EncodeDecode(s: Text)
    requires Decoded(s).Ok?
    ensures Encoded(Decoded(s).hrp, Decoded(s).values) == Lower(s)
  {
    hide Chars, Checksum, LastOne, Printable, Mixed, VerifyChecksum, LowerCase;
    var p := LastOne(s);
    var tail := s[p + 1..];
    var hrp, all := Lower(s[..p]), Symbols(tail);
    var values, check := all[..|all| - 6], all[|all| - 6..];
    assert all == values + check;
    ChecksumUnique(hrp, values, check);
    SymbolsChars(tail);
    SeparatorLower();
    assert s[p] == SEPARATOR;
    assert Lower(s) == hrp + [SEPARATOR] + Lower(tail);
  }

  lemma SeparatorLower()
    ensures LowerCase(SEPARATOR) == SEPARATOR
  {
  }

  /* ---- The loops ---- */

  lemma RoundIs(c: State, v: Sym)
    ensures Step(c, v) == Xor(Xor(Shift(c), Wide(v)), Xor(FoldLow(Top(c)), FoldHigh(Top(c))))
  {
    hide Xor, Shift, Wide, FoldLow, FoldHigh, Top;
  }

  function When(b: bool, c: State): State { if b then c else 0 }

  lemma Added(s: State, b: bool, c: State)
    ensures (if b then Xor(s, c) else s) == Xor(s, When(b, c))
  {
    hide Xor;
    Cancel(s);
  }

  lemma FoldTerms(c0: bv5)
    ensures FoldLow(c0) == Xor(Xor(When(c0 & 1 != 0, 0x3b6a57b2), When(c0 & 2 != 0, 0x26508e6d)),
                               When(c0 & 4 != 0, 0x1ea119fa))
    ensures FoldHigh(c0) == Xor(When(c0 & 8 != 0, 0x3d4233dd), When(c0 & 16 != 0, 0x2a1462b3))
  {
  }

  lemma FoldSteps(s: State, c0: bv5, a: State, b: State, c: State, d: State, e: State)
    requires a == (if c0 & 1 != 0 then Xor(s, 0x3b6a57b2) else s)
    requires b == (if c0 & 2 != 0 then Xor(a, 0x26508e6d) else a)
    requires c == (if c0 & 4 != 0 then Xor(b, 0x1ea119fa) else b)
    requires d == (if c0 & 8 != 0 then Xor(c, 0x3d4233dd) else c)
    requires e == (if c0 & 16 != 0 then Xor(d, 0x2a1462b3) else d)
    ensures e == Xor(s, Xor(FoldLow(c0), FoldHigh(c0)))
  {
    FoldTerms(c0);
    hide Xor, FoldLow, FoldHigh, When;
    var w1, w2, w3 := When(c0 & 1 != 0, 0x3b6a57b2), When(c0 & 2 != 0, 0x26508e6d), When(c0 & 4 != 0, 0x1ea119fa);
    var w4, w5 := When(c0 & 8 != 0, 0x3d4233dd), When(c0 & 16 != 0, 0x2a1462b3);
    Added(s, c0 & 1 != 0, 0x3b6a57b2);
    Added(a, c0 & 2 != 0, 0x26508e6d);
    Added(b, c0 & 4 != 0, 0x1ea119fa);
    Added(c, c0 & 8 != 0, 0x3d4233dd);
    Added(d, c0 & 16 != 0, 0x2a1462b3);
    Associate(s, w1, w2);
    Associate(s, Xor(w1, w2), w3);
    Associate(c, w4, w5);
    Associate(s, FoldLow(c0), FoldHigh(c0));
  }

  method ComputePolyMod(v: seq<Sym>) returns (c: State)
    ensures c == PolyMod(v)
  {
    hide Step, Run, Xor, FoldLow, FoldHigh;
    c := 1;
    RunNone(1);
    for i := 0 to |v|
      invariant c == Run(1, v[..i])
    {
      ghost var was := c;
      var c0 := Top(c);
      c := Xor(Shift(c), Wide(v[i]));
      ghost var s0 := c;
      if c0 & 1 != 0 { c := Xor(c, 0x3b6a57b2); }
      ghost var s1 := c;
      if c0 & 2 != 0 { c := Xor(c, 0x26508e6d); }
      ghost var s2 := c;
      if c0 & 4 != 0 { c := Xor(c, 0x1ea119fa); }
      ghost var s3 := c;
      if c0 & 8 != 0 { c := Xor(c, 0x3d4233dd); }
      ghost var s4 := c;
      if c0 & 16 != 0 { c := Xor(c, 0x2a1462b3); }
      FoldSteps(s0, c0, s1, s2, s3, s4, c);
      RoundIs(was, v[i]);
      RunOne(1, v[..i], v[i]);
      assert v[..i] + [v[i]] == v[..i + 1];
    }
    assert v[..|v|] == v;
  }

  method ComputeExpandHRP(hrp: Text) returns (r: seq<Sym>)
    ensures r == ExpandHRP(hrp)
  {
    hide High3, Low8;
    var ret := new Sym[2 * |hrp| + 1](_ => 0);
    for i := 0 to |hrp|
      invariant forall j | 0 <= j < i :: ret[j] == High3(hrp[j]) && ret[j + |hrp| + 1] == Low8(hrp[j])
    {
      ret[i] := High3(hrp[i]);
      ret[i + |hrp| + 1] := Low8(hrp[i]);
    }
    ret[|hrp|] := 0;
    r := ret[..];
  }

  function ShiftedBy(m: State, k: nat): State
    requires k <= 25
  {
    m >> k
  }

  lemma ShiftedAre(m: State)
    ensures ShiftedBy(m, 25) == m >> 25 && ShiftedBy(m, 20) == m >> 20 && ShiftedBy(m, 15) == m >> 15
    ensures ShiftedBy(m, 10) == m >> 10 && ShiftedBy(m, 5) == m >> 5 && ShiftedBy(m, 0) == m
  {
  }

  lemma GroupAt(m: State, i: nat)
    requires i < 6
    ensures Low5(ShiftedBy(m, 5 * (5 - i))) == Groups(m)[i]
  {
    hide Low5, ShiftedBy;
    ShiftedAre(m);
  }

  method CreateChecksum(hrp: Text, values: seq<Sym>) returns (r: seq<Sym>)
    ensures r == Checksum(hrp, values)
  {
    hide Low5, Groups, Run, Xor, ShiftedBy;
    var enc := ComputeExpandHRP(hrp);
    enc := enc + values + Zeros(6);
    var mod := ComputePolyMod(enc);
    mod := Xor(mod, 1);
    SixGroups(mod);
    r := [];
    for i := 0 to 6
      invariant r == Groups(mod)[..i]
    {
      GroupAt(mod, i);
      r := r + [Low5(ShiftedBy(mod, 5 * (5 - i)))];
    }
  }

  method Encode(hrp: Text, values: seq<Sym>) returns (ret: Text)
    ensures ret == Encoded(hrp, values)
  {
    hide Char, Checksum;
    var checksum := CreateChecksum(hrp, values);
    var combined := values + checksum;
    ret := hrp + [SEPARATOR];
    for i := 0 to |combined|
      invariant ret == hrp + [SEPARATOR] + Chars(combined[..i])
    {
      ret := ret + [Char(combined[i])];
    }
    assert combined[..|combined|] == combined;
  }

  /** The scan for case and range. */
  method ScanCase(s: Text) returns (ok: bool)
    ensures ok <==> Printable(s) && !Mixed(s)
  {
    var lower, upper := false, false;
    for i := 0 to |s|
      invariant Printable(s[..i])
      invariant lower == exists j | 0 <= j < i :: IsLower(s[j])
      invariant upper == exists j | 0 <= j < i :: IsUpper(s[j])
    {
      assert s[..i + 1] == s[..i] + [s[i]];
      if IsLower(s[i]) {
        lower := true;
      } else if IsUpper(s[i]) {
        upper := true;
      } else if s[i] < 33 || s[i] > 126 {
        return false;
      }
    }
    assert s[..|s|] == s;
    return !(lower && upper);
  }

  method FindLast(s: Text) returns (p: int)
    ensures p == LastOne(s)
  {
    p := |s| - 1;
    while p >= 0 && s[p] != SEPARATOR
      invariant -1 <= p < |s| && forall i | p < i < |s| :: s[i] != SEPARATOR
    {
      p := p - 1;
    }
    if p >= 0 {
      LastOneIs(s, p);
    } else {
      assert LastOne(s) == -1;
    }
  }

  method ReadSymbols(tail: Text) returns (ok: bool, values: seq<Sym>)
    ensures ok <==> AllSymbols(tail)
    ensures ok ==> values == Symbols(tail)
  {
    hide Rev;
    values := [];
    for i := 0 to |tail|
      invariant AllSymbols(tail[..i]) && values == Symbols(tail[..i])
    {
      if Rev(tail[i]) == NONE {
        return false, [];
      }
      values := values + [SymOf(tail[i])];
    }
    assert tail[..|tail|] == tail;
    ok := true;
  }

  method Decode(s: Text) returns (r: Result)
    ensures r == Decoded(s)
  {
    hide Printable, Mixed, LastOne, AllSymbols, Symbols, VerifyChecksum, LowerCase;
    var ok := ScanCase(s);
    if !ok {
      return Fail;
    }
    var pos := FindLast(s);
    if |s| > 140 || pos == -1 || pos == 0 || pos + 7 > |s| || pos > 83 {
      return Fail;
    }
    var values;
    ok, values := ReadSymbols(s[pos + 1..]);
    if !ok {
      return Fail;
    }
    var hrp := [];
    for i := 0 to pos
      invariant hrp == Lower(s[..pos])[..i]
    {
      hrp := hrp + [LowerCase(s[i])];
    }
    assert Lower(s[..pos])[..pos] == Lower(s[..pos]);
    ok := CheckValues(hrp, values);
    SymbolCount(s[pos + 1..]);
    r := if ok then Ok(hrp, values[..|values| - 6]) else Fail;
  }

  lemma SymbolCount(tail: Text)
    requires AllSymbols(tail)
    ensures |Symbols(tail)| == |tail|
  {
  }

  method CheckValues(hrp: Text, values: seq<Sym>) returns (ok: bool)
    ensures ok == VerifyChecksum(hrp, values)
  {
    hide Run;
    var enc := ComputeExpandHRP(hrp);
    var mod := ComputePolyMod(enc + values);
    ok := mod == 1;
  }

  /** A string that decodes no longer does after changing up to six consecutive characters of its data part to
      anything that is neither the separator nor the same letter in another case. */
  lemma CorruptText(s: Text, t: Text, at: nat, n: nat)
    requires Decoded(s).Ok? && |t| == |s|
    requires var p := LastOne(s) + 1;
             && p <= at && n <= 6 && at + n <= |s|
             && t[..p] == s[..p] && t[p..at] == s[p..at] && t[at + n..] == s[at + n..]
    requires forall i | at <= i < at + n :: t[i] != SEPARATOR
    requires Lower(t) != Lower(s)
    ensures Decoded(t) == Fail
  {
    hide LowerCase, VerifyChecksum, LastOne, Mixed, Printable, SymOf, InCharset, AllSymbols, Symbols, Lower;
    var p := LastOne(s) + 1;
    SameHead(s, t, p, at, n);
    LastOneIs(t, p - 1);
    var u, v := s[p..], t[p..];
    if AllSymbols(v) {
      SymbolsDiffer(s, t, p);
      SymbolWindow(u, v, at - p, n);
      CorruptionDetected(Lower(s[..p - 1]), Symbols(u), Symbols(v), at - p, n);
    }
  }

  /** Two strings of the same length that agree but for three positions. */
  ghost predicate TripleText(s: Text, t: Text, i: nat, j: nat, k: nat) {
    |t| == |s| && i < j < k < |s| && forall n | 0 <= n < |s| && n != i && n != j && n != k :: t[n] == s[n]
  }

  /** A string that decodes no longer does after changing any one, two or three characters of its data part, wherever
      they are, to anything that is neither the separator nor the same letter in another case. */
  lemma CorruptTriple(s: Text, t: Text, i: nat, j: nat, k: nat)
    requires Decoded(s).Ok? && LastOne(s) < i && TripleText(s, t, i, j, k)
    requires t[i] != SEPARATOR && t[j] != SEPARATOR && t[k] != SEPARATOR
    requires Lower(t) != Lower(s)
    ensures Decoded(t) == Fail
  {
    hide LowerCase, VerifyChecksum, LastOne, Mixed, Printable, SymOf, InCharset, AllSymbols, Symbols, Lower, TripleText;
    var p := LastOne(s) + 1;
    TripleHead(s, t, p, i, j, k);
    LastOneIs(t, p - 1);
    var u, v := s[p..], t[p..];
    if AllSymbols(v) {
      SymbolsDiffer(s, t, p);
      SymbolTriple(u, v, i - p, j - p, k - p);
      TripleCorruption(Lower(s[..p - 1]), Symbols(u), Symbols(v), i - p, j - p, k - p);
    }
  }

  lemma TripleHead(s: Text, t: Text, p: nat, i: nat, j: nat, k: nat)
    requires TripleText(s, t, i, j, k) && 0 < p <= i && t[i] != SEPARATOR && t[j] != SEPARATOR && t[k] != SEPARATOR
    requires s[p - 1] == SEPARATOR && forall n | p <= n < |s| :: s[n] != SEPARATOR
    ensures |t| == |s| && t[p - 1] == SEPARATOR && forall n | p <= n < |t| :: t[n] != SEPARATOR
    ensures t[..p] == s[..p] && t[..p - 1] == s[..p - 1] && TripleText(s[p..], t[p..], i - p, j - p, k - p)
  {
  }

  lemma SymbolTriple(u: Text, v: Text, i: nat, j: nat, k: nat)
    requires TripleText(u, v, i, j, k) && AllSymbols(u) && AllSymbols(v)
    ensures Triple(Symbols(u), Symbols(v), i, j, k)
  {
    hide SymOf, InCharset;
  }

  lemma SameHead(s: Text, t: Text, p: nat, at: nat, n: nat)
    requires |t| == |s| && 0 < p <= at && at + n <= |s| && t[..p] == s[..p] && t[p..at] == s[p..at]
             && t[at + n..] == s[at + n..]
    requires s[p - 1] == SEPARATOR && (forall i | p <= i < |s| :: s[i] != SEPARATOR)
             && forall i | at <= i < at + n :: t[i] != SEPARATOR
    ensures t[p - 1] == SEPARATOR && (forall i | p <= i < |t| :: t[i] != SEPARATOR) && t[..p - 1] == s[..p - 1]
    ensures s[p..][..at - p] == t[p..][..at - p] && s[p..][at - p + n..] == t[p..][at - p + n..]
  {
    forall i | p <= i < |t| ensures t[i] != SEPARATOR {
      if i < at {
        assert t[i] == t[p..at][i - p] == s[p..at][i - p] == s[i];
      } else if i >= at + n {
        assert t[i] == t[at + n..][i - at - n] == s[at + n..][i - at - n] == s[i];
      }
    }
    assert t[p - 1] == t[..p][p - 1] == s[..p][p - 1];
    assert t[..p - 1] == t[..p][..p - 1] == s[..p][..p - 1] == s[..p - 1];
    assert s[p..][..at - p] == s[p..at] && t[p..][..at - p] == t[p..at];
    assert s[p..][at - p + n..] == s[at + n..] && t[p..][at - p + n..] == t[at + n..];
  }

  lemma SymbolsDiffer(s: Text, t: Text, p: nat)
    requires |s| == |t| && p <= |s| && s[..p] == t[..p] && AllSymbols(s[p..]) && AllSymbols(t[p..])
             && Lower(s) != Lower(t)
    ensures Symbols(s[p..]) != Symbols(t[p..])
  {
    hide LowerCase, SymOf, InCharset;
    SymbolsChars(s[p..]);
    SymbolsChars(t[p..]);
    assert Lower(s) == Lower(s[..p]) + Lower(s[p..]) && Lower(t) == Lower(t[..p]) + Lower(t[p..]);
  }

  lemma SymbolWindow(u: Text, v: Text, at: nat, n: nat)
    requires |u| == |v| && at + n <= |u| && u[..at] == v[..at] && u[at + n..] == v[at + n..] && AllSymbols(u)
             && AllSymbols(v)
    ensures Window(Symbols(u), Symbols(v), at, n)
  {
    hide SymOf, InCharset;
    assert Symbols(u)[..at] == Symbols(u[..at]) && Symbols(v)[..at] == Symbols(v[..at]);
    assert Symbols(u)[at + n..] == Symbols(u[at + n..]) && Symbols(v)[at + n..] == Symbols(v[at + n..]);
  }
}
