/** Contest-scoped CSOJ problem ids, pkg/adapter/adapter.go: csjEncode and CSOJProblemID. The encoding is base64url
    without padding, sections 5 and 3.2 of RFC 4648. */
module ProblemIds {
  import opened Wrappers

  type Byte = b: int | 0 <= b < 0x100
  type Sextet = v: int | 0 <= v < 64

  const SEPARATOR: Sextet := 63

  // --- bytes and sextets ---

  /** Three bytes are four sextets; a group cut short is padded with zero bits. */
  function Sextet0(a: Byte): Sextet { a / 4 }
  function Sextet1(a: Byte, b: Byte): Sextet { a % 4 * 16 + b / 16 }
  function Sextet2(b: Byte, c: Byte): Sextet { b % 16 * 4 + c / 64 }
  function Sextet3(c: Byte): Sextet { c % 64 }

  function Byte0(v: Sextet, w: Sextet): Byte { var x: int, y: int := v, w; x * 4 + y / 16 }
  function Byte1(w: Sextet, x: Sextet): Byte { var y: int, z: int := w, x; y % 16 * 16 + z / 4 }
  function Byte2(x: Sextet, y: Sextet): Byte { var z: int, w: int := x, y; z % 4 * 64 + w }

  function Sextets(s: seq<Byte>): seq<Sextet> {
    if |s| == 0 then []
    else if |s| == 1 then [Sextet0(s[0]), Sextet1(s[0], 0)]
    else if |s| == 2 then [Sextet0(s[0]), Sextet1(s[0], s[1]), Sextet2(s[1], 0)]
    else [Sextet0(s[0]), Sextet1(s[0], s[1]), Sextet2(s[1], s[2]), Sextet3(s[2])] + Sextets(s[3..])
  }

  /** The inverse; bits that an incomplete last group has left over are dropped. */
  function Bytes(v: seq<Sextet>): seq<Byte> {
    if |v| <= 1 then []
    else if |v| == 2 then [Byte0(v[0], v[1])]
    else if |v| == 3 then [Byte0(v[0], v[1]), Byte1(v[1], v[2])]
    else [Byte0(v[0], v[1]), Byte1(v[1], v[2]), Byte2(v[2], v[3])] + Bytes(v[4..])
  }

  predicate LowFourClear(w: Sextet) { w % 16 == 0 }
  predicate LowTwoClear(x: Sextet) { x % 4 == 0 }

  /** No dangling sextet, and no bits left over. */
  predicate Complete(v: seq<Sextet>) {
    if |v| > 3 then Complete(v[4..])
    else |v| != 1 && (|v| == 2 ==> LowFourClear(v[1])) && (|v| == 3 ==> LowTwoClear(v[2]))
  }

  lemma BytesOfGroup(a: Byte, b: Byte, c: Byte)
    ensures Byte0(Sextet0(a), Sextet1(a, b)) == a
    ensures Byte1(Sextet1(a, b), Sextet2(b, c)) == b
    ensures Byte2(Sextet2(b, c), Sextet3(c)) == c
    ensures LowFourClear(Sextet1(a, 0)) && LowTwoClear(Sextet2(b, 0))
  {
  }

  /** Three bytes and their four sextets are the same number, most significant first. */
  lemma SextetsKeepValue(a: Byte, b: Byte, c: Byte)
    ensures (a as int * 0x100 + b) * 0x100 + c
         == ((Sextet0(a) as int * 64 + Sextet1(a, b)) * 64 + Sextet2(b, c)) * 64 + Sextet3(c)
  {
  }

  lemma SextetsOfGroup(v: Sextet, w: Sextet, x: Sextet, y: Sextet)
    ensures Sextet0(Byte0(v, w)) == v
    ensures Sextet1(Byte0(v, w), Byte1(w, x)) == w && (LowFourClear(w) ==> Sextet1(Byte0(v, w), 0) == w)
    ensures Sextet2(Byte1(w, x), Byte2(x, y)) == x && (LowTwoClear(x) ==> Sextet2(Byte1(w, x), 0) == x)
    ensures Sextet3(Byte2(x, y)) == y
  {
  }

  lemma BytesOfFour(v: Sextet, w: Sextet, x: Sextet, y: Sextet, rest: seq<Sextet>)
    ensures Bytes([v, w, x, y] + rest) == [Byte0(v, w), Byte1(w, x), Byte2(x, y)] + Bytes(rest)
    ensures Complete([v, w, x, y] + rest) <==> Complete(rest)
  {
    assert ([v, w, x, y] + rest)[4..] == rest;
  }

  lemma {:induction false} BytesOfSextets(s: seq<Byte>)
    ensures Complete(Sextets(s)) && Bytes(Sextets(s)) == s
  {
    hide Sextet0, Sextet1, Sextet2, Sextet3, Byte0, Byte1, Byte2, LowFourClear, LowTwoClear;
    if |s| > 2 {
      BytesOfSextets(s[3..]);
      BytesOfFour(Sextet0(s[0]), Sextet1(s[0], s[1]), Sextet2(s[1], s[2]), Sextet3(s[2]), Sextets(s[3..]));
      BytesOfGroup(s[0], s[1], s[2]);
      assert s == [s[0], s[1], s[2]] + s[3..];
    } else if s != [] {
      BytesOfGroup(s[0], if |s| > 1 then s[1] else 0, 0);
    }
  }

  lemma SextetsOfThree(a: Byte, b: Byte, c: Byte, s: seq<Byte>)
    ensures Sextets([a, b, c] + s) == [Sextet0(a), Sextet1(a, b), Sextet2(b, c), Sextet3(c)] + Sextets(s)
  {
    assert ([a, b, c] + s)[3..] == s;
  }

  lemma {:induction false} SextetsOfBytes(v: seq<Sextet>)
    requires Complete(v)
    ensures Sextets(Bytes(v)) == v
  {
    if |v| > 3 {
      SextetsOfBytes(v[4..]);
      SextetsOfThree(Byte0(v[0], v[1]), Byte1(v[1], v[2]), Byte2(v[2], v[3]), Bytes(v[4..]));
      SextetsOfGroup(v[0], v[1], v[2], v[3]);
      hide Sextets, Sextet0, Sextet1, Sextet2, Sextet3, Byte0, Byte1, Byte2;
      assert v == [v[0], v[1], v[2], v[3]] + v[4..];
    } else if v != [] {
      SextetsOfGroup(v[0], v[1], if |v| > 2 then v[2] else 0, 0);
      hide Sextet0, Sextet1, Sextet2, Sextet3, Byte0, Byte1, Byte2, LowFourClear, LowTwoClear;
    }
  }

  lemma {:induction false} CompleteDoesNotDangle(v: seq<Sextet>)
    requires Complete(v)
    ensures |v| % 4 != 1
  {
    if |v| > 3 {
      CompleteDoesNotDangle(v[4..]);
    }
  }

  // --- characters ---

  function Char(v: Sextet): char {
    if v < 26 then ('A' as int + v) as char
    else if v < 52 then ('a' as int + v - 26) as char
    else if v < 62 then ('0' as int + v - 52) as char
    else if v == 62 then '-'
    else '_'
  }

  function Value(c: char): Option<Sextet> {
    if 'A' <= c <= 'Z' then Some(c as int - 'A' as int)
    else if 'a' <= c <= 'z' then Some(c as int - 'a' as int + 26)
    else if '0' <= c <= '9' then Some(c as int - '0' as int + 52)
    else if c == '-' then Some(62)
    else if c == '_' then Some(63)
    else None
  }

  /** The alphabet of RFC 4648, section 5. */
  const ALPHABET := "ABCDEFGHIJKLMNOPQRSTUVWXYZ" + "abcdefghijklmnopqrstuvwxyz" + "0123456789-_"

  lemma CharsAreTheAlphabet(v: Sextet)
    ensures |ALPHABET| == 64 && Char(v) == ALPHABET[v]
  {
    assert v < 26 ==> Char(v) == "ABCDEFGHIJKLMNOPQRSTUVWXYZ"[v];
    assert 26 <= v < 52 ==> Char(v) == "abcdefghijklmnopqrstuvwxyz"[v - 26];
    assert 52 <= v ==> Char(v) == "0123456789-_"[v - 52];
  }

  lemma ValueInvertsChar(v: Sextet)
    ensures Value(Char(v)) == Some(v)
  {
  }

  function Chars(v: seq<Sextet>): string {
    seq(|v|, k requires 0 <= k < |v| => Char(v[k]))
  }

  function Encode(s: seq<Byte>): string {
    Chars(Sextets(s))
  }

  predicate InAlphabet(t: string) {
    forall k | 0 <= k < |t| :: Value(t[k]).Some?
  }

  function Values(t: string): seq<Sextet>
    requires InAlphabet(t)
  {
    seq(|t|, k requires 0 <= k < |t| => Value(t[k]).value)
  }

  function Decode(t: string): Option<seq<Byte>> {
    if InAlphabet(t) && |t| % 4 != 1 then Some(Bytes(Values(t))) else None
  }

  lemma ValuesOfChars(v: seq<Sextet>)
    ensures InAlphabet(Chars(v)) && Values(Chars(v)) == v
  {
    forall k | 0 <= k < |v| ensures Value(Chars(v)[k]) == Some(v[k]) {
      ValueInvertsChar(v[k]);
    }
  }

  lemma CharsOfValues(t: string)
    requires InAlphabet(t)
    ensures Chars(Values(t)) == t
  {
    forall k | 0 <= k < |t| ensures Char(Value(t[k]).value) == t[k] {
    }
  }

  lemma DecodeInvertsEncode(s: seq<Byte>)
    ensures Decode(Encode(s)) == Some(s)
  {
    ValuesOfChars(Sextets(s));
    BytesOfSextets(s);
    CompleteDoesNotDangle(Sextets(s));
  }

  /** The strings `Encode` produces are those over the alphabet without a dangling character or left-over bits. */
  lemma EncodedStrings(t: string)
    ensures (exists s: seq<Byte> :: Encode(s) == t) <==> InAlphabet(t) && Complete(Values(t))
  {
    if InAlphabet(t) && Complete(Values(t)) {
      SextetsOfBytes(Values(t));
      CharsOfValues(t);
      assert Encode(Bytes(Values(t))) == t;
    }
    hide Sextets, Complete, Value, Char;
    forall s: seq<Byte> | Encode(s) == t ensures InAlphabet(t) && Complete(Values(t)) {
      ValuesOfChars(Sextets(s));
      BytesOfSextets(s);
    }
  }

  // --- ids ---

  function CSOJProblemID(contest: seq<Byte>, problem: seq<Byte>): string {
    "cdj_" + Encode(contest) + "_" + Encode(problem)
  }

  /** Two ids are equal when their sextets are, the separator being sextet 63. */
  lemma {:induction false} SameID(c: seq<Byte>, p: seq<Byte>, c': seq<Byte>, p': seq<Byte>)
    ensures CSOJProblemID(c, p) == CSOJProblemID(c', p')
            <==> Sextets(c) + [SEPARATOR] + Sextets(p) == Sextets(c') + [SEPARATOR] + Sextets(p')
  {
    hide Sextets, Value, InAlphabet;
    var v, v' := Sextets(c) + [SEPARATOR] + Sextets(p), Sextets(c') + [SEPARATOR] + Sextets(p');
    var id, id' := CSOJProblemID(c, p), CSOJProblemID(c', p');
    assert id == "cdj_" + Chars(v) && id' == "cdj_" + Chars(v');
    assert id[4..] == Chars(v) && id'[4..] == Chars(v');
    ValuesOfChars(v);
    ValuesOfChars(v');
  }

  /** Read as bytes: the first contest is a proper prefix of the second, and the next bytes of the second put a '_'
      where the encoding of the first ends. */
  predicate Clash(c: seq<Byte>, c': seq<Byte>) {
    && c < c'
    && var n := |c|;
       match n % 3
       case 0 => c'[n] >= 0xFC
       case 1 => c'[n] == 0x0F && n + 1 < |c'| && c'[n + 1] >= 0xC0
       case _ => c'[n] == 0x3F
  }

  lemma {:induction false} ClashMeansSeparator(c: seq<Byte>, c': seq<Byte>)
    ensures Clash(c, c') <==> Sextets(c) + [SEPARATOR] <= Sextets(c')
  {
    if |c| == 0 {
      ClashAtStart(c, c');
    } else if |c| == 1 {
      ClashAfterOne(c, c');
    } else if |c| == 2 {
      ClashAfterTwo(c, c');
    } else if |c'| > 2 {
      ClashMeansSeparator(c[3..], c'[3..]);
      ClashTail(c, c');
      SeparatorTail(c, c');
    } else {
      assert |Sextets(c)| >= 4 > |Sextets(c')|;
    }
  }

  lemma ClashTail(c: seq<Byte>, c': seq<Byte>)
    requires |c| > 2 && |c'| > 2
    ensures Clash(c, c') <==> c[..3] == c'[..3] && Clash(c[3..], c'[3..])
  {
    assert c == c[..3] + c[3..] && c' == c'[..3] + c'[3..];
    assert |c[3..]| % 3 == |c| % 3;
    if c[..3] == c'[..3] && Clash(c[3..], c'[3..]) {
      assert c < c';
    }
  }

  lemma {:induction false} SameGroup(c: seq<Byte>, c': seq<Byte>)
    requires |c| > 2 && |c'| > 2
    ensures Sextets(c)[..4] == Sextets(c')[..4] <==> c[..3] == c'[..3]
  {
    BytesOfGroup(c[0], c[1], c[2]);
    BytesOfGroup(c'[0], c'[1], c'[2]);
    hide Sextet0, Sextet1, Sextet2, Sextet3, Byte0, Byte1, Byte2;
    var v, v' := Sextets(c)[..4], Sextets(c')[..4];
    assert v == [Sextet0(c[0]), Sextet1(c[0], c[1]), Sextet2(c[1], c[2]), Sextet3(c[2])];
    assert v' == [Sextet0(c'[0]), Sextet1(c'[0], c'[1]), Sextet2(c'[1], c'[2]), Sextet3(c'[2])];
    assert c[..3] == [c[0], c[1], c[2]] && c'[..3] == [c'[0], c'[1], c'[2]];
  }

  lemma {:induction false} SeparatorTail(c: seq<Byte>, c': seq<Byte>)
    requires |c| > 2 && |c'| > 2
    ensures Sextets(c) + [SEPARATOR] <= Sextets(c')
            <==> c[..3] == c'[..3] && Sextets(c[3..]) + [SEPARATOR] <= Sextets(c'[3..])
  {
    SameGroup(c, c');
    hide Sextet0, Sextet1, Sextet2, Sextet3;
    var v, v' := Sextets(c) + [SEPARATOR], Sextets(c');
    assert v[4..] == Sextets(c[3..]) + [SEPARATOR] && v'[4..] == Sextets(c'[3..]);
    assert v == v[..4] + v[4..] && v' == v'[..4] + v'[4..];
    assert v[..4] == Sextets(c)[..4];
  }

  lemma HighBits(a: Byte, b: Byte, c: Byte)
    ensures Sextet1(a, b) == Sextet1(a, 0) <==> b < 0x10
    ensures Sextet2(b, c) == Sextet2(b, 0) <==> c < 0x40
  {
  }

  lemma AllOnes(b: Byte, c: Byte)
    ensures b < 0x10 && Sextet2(b, c) == SEPARATOR <==> b == 0x0F && c >= 0xC0
    ensures c < 0x40 && Sextet3(c) == SEPARATOR <==> c == 0x3F
  {
  }

  lemma OneByte(a: Byte, a': Byte, b: Byte, c: Byte)
    ensures Sextet0(a) == Sextet0(a') && Sextet1(a, 0) == Sextet1(a', b) && Sextet2(b, c) == SEPARATOR
            <==> a == a' && b == 0x0F && c >= 0xC0
  {
    hide Sextet0, Sextet1, Sextet2, Sextet3, Byte0, Byte1, Byte2;
    BytesOfGroup(a, 0, 0);
    BytesOfGroup(a', b, c);
    HighBits(a, b, c);
    AllOnes(b, c);
  }

  lemma TwoBytes(a: Byte, b: Byte, a': Byte, b': Byte, c: Byte)
    ensures Sextet0(a) == Sextet0(a') && Sextet1(a, b) == Sextet1(a', b') && Sextet2(b, 0) == Sextet2(b', c)
            && Sextet3(c) == SEPARATOR
            <==> a == a' && b == b' && c == 0x3F
  {
    hide Sextet0, Sextet1, Sextet2, Sextet3, Byte0, Byte1, Byte2;
    BytesOfGroup(a, b, 0);
    BytesOfGroup(a', b', c);
    HighBits(a, b, c);
    AllOnes(b, c);
  }

  function At(s: seq<Byte>, k: nat): Byte {
    if k < |s| then s[k] else 0
  }

  lemma Heads(s: seq<Byte>)
    requires s != []
    ensures var v := Sextets(s);
            && |v| > 1 && v[0] == Sextet0(s[0]) && v[1] == Sextet1(s[0], At(s, 1))
            && (|v| > 2 <==> |s| > 1) && (|v| > 2 ==> v[2] == Sextet2(s[1], At(s, 2)))
            && (|v| > 3 <==> |s| > 2) && (|v| > 3 ==> v[3] == Sextet3(s[2]))
  {
  }

  lemma ClashAtStart(c: seq<Byte>, c': seq<Byte>)
    requires c == []
    ensures Clash(c, c') <==> Sextets(c) + [SEPARATOR] <= Sextets(c')
  {
    assert Sextets(c) + [SEPARATOR] == [SEPARATOR];
    if c' != [] {
      Heads(c');
    }
  }

  lemma ClashAfterOne(c: seq<Byte>, c': seq<Byte>)
    requires |c| == 1
    ensures Clash(c, c') <==> Sextets(c) + [SEPARATOR] <= Sextets(c')
  {
    var v, v' := Sextets(c) + [SEPARATOR], Sextets(c');
    assert v == [Sextet0(c[0]), Sextet1(c[0], 0), SEPARATOR];
    if |c'| > 1 {
      Heads(c');
      OneByte(c[0], c'[0], c'[1], At(c', 2));
      hide Sextets, Sextet0, Sextet1, Sextet2, Sextet3;
      assert c < c' <==> c[0] == c'[0];
      assert v <= v' <==> v[0] == v'[0] && v[1] == v'[1] && v[2] == v'[2];
    }
  }

  lemma ClashAfterTwo(c: seq<Byte>, c': seq<Byte>)
    requires |c| == 2
    ensures Clash(c, c') <==> Sextets(c) + [SEPARATOR] <= Sextets(c')
  {
    var v, v' := Sextets(c) + [SEPARATOR], Sextets(c');
    assert v == [Sextet0(c[0]), Sextet1(c[0], c[1]), Sextet2(c[1], 0), SEPARATOR];
    if |c'| > 2 {
      Heads(c');
      TwoBytes(c[0], c[1], c'[0], c'[1], c'[2]);
      hide Sextets, Sextet0, Sextet1, Sextet2, Sextet3;
      assert c < c' <==> c[0] == c'[0] && c[1] == c'[1];
      assert v <= v' <==> v[0] == v'[0] && v[1] == v'[1] && v[2] == v'[2] && v[3] == v'[3];
    }
  }

  // --- which contests have ambiguous ids ---

  ghost predicate Ambiguous(c: seq<Byte>, c': seq<Byte>) {
    exists p: seq<Byte>, p': seq<Byte> :: (c, p) != (c', p') && CSOJProblemID(c, p) == CSOJProblemID(c', p')
  }

  lemma SextetsAreInjective(s: seq<Byte>, s': seq<Byte>)
    requires Sextets(s) == Sextets(s')
    ensures s == s'
  {
    BytesOfSextets(s);
    BytesOfSextets(s');
  }

  lemma SameIDMeansClash(c: seq<Byte>, p: seq<Byte>, c': seq<Byte>, p': seq<Byte>)
    requires (c, p) != (c', p') && CSOJProblemID(c, p) == CSOJProblemID(c', p') && |Sextets(c)| <= |Sextets(c')|
    ensures Clash(c, c')
  {
    SameID(c, p, c', p');
    ClashMeansSeparator(c, c');
    hide Sextets, CSOJProblemID, Clash;
    var v, v' := Sextets(c), Sextets(c');
    var whole := v + [SEPARATOR] + Sextets(p);
    assert whole == v' + [SEPARATOR] + Sextets(p');
    if |v| == |v'| {
      assert v == whole[..|v|] == v';
      assert Sextets(p) == whole[|v| + 1..] == Sextets(p');
      SextetsAreInjective(c, c');
      SextetsAreInjective(p, p');
    } else {
      assert v + [SEPARATOR] == whole[..|v| + 1] == v'[..|v| + 1];
    }
  }

  lemma ZeroIsClear(v: Sextet)
    requires v == 0
    ensures LowFourClear(v) && LowTwoClear(v)
  {
  }

  /** Whatever stands before a '_', some problem after it makes the whole an encoding again. */
  lemma {:induction false} Completion(t: seq<Sextet>) returns (p: seq<Byte>)
    ensures Complete(t + [SEPARATOR] + Sextets(p))
  {
    hide Bytes, Sextets, LowFourClear, LowTwoClear;
    ZeroIsClear(0);
    if |t| > 3 {
      p := Completion(t[4..]);
      var rest := t[4..] + [SEPARATOR] + Sextets(p);
      BytesOfFour(t[0], t[1], t[2], t[3], rest);
      assert t + [SEPARATOR] + Sextets(p) == [t[0], t[1], t[2], t[3]] + rest;
    } else {
      var w := if t == [] then [0, 0, 0] else [0, 0, 0, 0];
      p := Bytes(w);
      SextetsOfBytes(w);
      var v := t + [SEPARATOR] + w;
      BytesOfFour(v[0], v[1], v[2], v[3], v[4..]);
      assert v == [v[0], v[1], v[2], v[3]] + v[4..];
    }
  }

  lemma ClashMeansSameID(c: seq<Byte>, c': seq<Byte>)
    requires Clash(c, c')
    ensures Ambiguous(c, c')
  {
    ClashMeansSeparator(c, c');
    hide Sextets, CSOJProblemID;
    var v, v' := Sextets(c), Sextets(c');
    var t := v'[|v| + 1..];
    var p' := Completion(t);
    var x := t + [SEPARATOR] + Sextets(p');
    SextetsOfBytes(x);
    assert v + [SEPARATOR] + x == v' + [SEPARATOR] + Sextets(p');
    SameID(c, Bytes(x), c', p');
    assert (c, Bytes(x)) != (c', p');
  }

  lemma AmbiguousIsSymmetric(c: seq<Byte>, c': seq<Byte>)
    requires Ambiguous(c, c')
    ensures Ambiguous(c', c)
  {
    hide CSOJProblemID;
    var p: seq<Byte>, p': seq<Byte> :| (c, p) != (c', p') && CSOJProblemID(c, p) == CSOJProblemID(c', p');
    assert (c', p') != (c, p);
  }

  /** Some problems of two contests share a CSOJ id exactly when one contest is a prefix of the other and the other's
      next bytes place a '_' there. */
  lemma AmbiguousContests(c: seq<Byte>, c': seq<Byte>)
    ensures Ambiguous(c, c') <==> Clash(c, c') || Clash(c', c)
  {
    if Ambiguous(c, c') {
      var p: seq<Byte>, p': seq<Byte> :| (c, p) != (c', p') && CSOJProblemID(c, p) == CSOJProblemID(c', p');
      if |Sextets(c)| <= |Sextets(c')| {
        SameIDMeansClash(c, p, c', p');
      } else {
        SameIDMeansClash(c', p', c, p);
      }
    } else {
      hide CSOJProblemID;
      if Clash(c, c') {
        ClashMeansSameID(c, c');
      }
      if Clash(c', c) {
        ClashMeansSameID(c', c);
        AmbiguousIsSymmetric(c', c);
      }
    }
  }

  /** A contest id in UTF-8 (no byte is 0xFC or above) without '?' and without the control character 0x0F. */
  predicate Plain(c: seq<Byte>) {
    forall b :: b in c ==> b < 0xFC && b != 0x3F && b != 0x0F
  }

  /** Ids of problems in plain contests are unique, whatever the problems are called. */
  lemma IdsAreInjective(c: seq<Byte>, p: seq<Byte>, c': seq<Byte>, p': seq<Byte>)
    requires Plain(c) && Plain(c')
    ensures CSOJProblemID(c, p) == CSOJProblemID(c', p') <==> c == c' && p == p'
  {
    AmbiguousContests(c, c');
    hide CSOJProblemID;
    assert forall k :: 0 <= k < |c| ==> c[k] in c;
    assert forall k :: 0 <= k < |c'| ==> c'[k] in c';
  }

  /** The comment on csjEncode calls the ids collision-free. Contests "ab" and "ab?cd" show they are not. */
  lemma TwoProblemsOneID()
    ensures var ab, abcd, cde, e := [0x61, 0x62], [0x61, 0x62, 0x3F, 0x63, 0x64], [0x63, 0x64, 0x3F, 0x65], [0x65];
            CSOJProblemID(ab, cde) == CSOJProblemID(abcd, e) == "cdj_YWI_Y2Q_ZQ"
  {
    var ab, abcd, cde, e := [0x61, 0x62], [0x61, 0x62, 0x3F, 0x63, 0x64], [0x63, 0x64, 0x3F, 0x65], [0x65];
    FourCodes();
    hide Encode;
    assert "cdj_" + "YWI" + "_" + "Y2Q_ZQ" == "cdj_YWI_Y2Q_ZQ" == "cdj_" + "YWI_Y2Q" + "_" + "ZQ";
  }

  lemma FourCodes()
    ensures Encode([0x61, 0x62]) == "YWI" && Encode([0x65]) == "ZQ"
    ensures Encode([0x63, 0x64, 0x3F, 0x65]) == "Y2Q_ZQ" && Encode([0x61, 0x62, 0x3F, 0x63, 0x64]) == "YWI_Y2Q"
  {
    var cde, abcd := [0x63, 0x64, 0x3F, 0x65], [0x61, 0x62, 0x3F, 0x63, 0x64];
    assert cde[3..] == [0x65] && abcd[3..] == [0x63, 0x64];
  }
}
