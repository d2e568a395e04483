/** What the two preimages of pkg/controller/leases.go tell apart, and exactly when they do not. */
module KeyTheorems {
  import opened Keys
  import opened Separators

  predicate Avoids(s: string, c: char) {
    c !in s
  }

  ghost predicate AllAvoid(keys: set<string>, c: char) {
    forall n :: n in keys ==> Avoids(n, c)
  }

  /** unicode.IsSpace, by which strings.TrimSpace trims. */
  predicate Space(c: char) {
    || '\t' <= c <= '\r' || c == ' ' || c == '\U{0085}' || c == '\U{00A0}' || c == '\U{1680}'
    || '\U{2000}' <= c <= '\U{200A}' || c == '\U{2028}' || c == '\U{2029}' || c == '\U{202F}' || c == '\U{205F}'
    || c == '\U{3000}'
  }

  /** Nothing is left of it after trimming. */
  predicate Blank(s: string) {
    forall c :: c in s ==> Space(c)
  }

  /** The file names the handler lets through: some, and none of them blank. */
  ghost predicate Receivable(keys: set<string>) {
    keys != {} && forall n :: n in keys ==> !Blank(n)
  }

  lemma BarIsNotBlank(s: string)
    requires '|' in s
    ensures !Blank(s)
  {
    assert !Space('|');
  }

  // --- the scope key ---

  lemma {:induction false} FieldsInjective(a: seq<string>, b: seq<string>)
    requires forall n :: n in a || n in b ==> Avoids(n, '|')
    requires Fields(a) == Fields(b)
    ensures a == b
  {
    if a != [] && b != [] {
      assert a[0] in a && b[0] in b;
      FirstSeparator(a[0], Fields(a[1..]), b[0], Fields(b[1..]), '|');
      FieldsInjective(a[1..], b[1..]);
      assert a == [a[0]] + a[1..] && b == [b[0]] + b[1..];
    }
  }

  /** Where no field holds a '|', the scope key tells apart any two principals, problems or sets of file names. */
  lemma ScopeKeyIdentifies(p: string, q: string, keys: set<string>, p': string, q': string, keys': set<string>)
    requires Avoids(p, '|') && Avoids(p', '|') && Avoids(q, '|') && Avoids(q', '|')
    requires AllAvoid(keys, '|') && AllAvoid(keys', '|')
    ensures ScopePreimage(p, q, keys) == ScopePreimage(p', q', keys') <==> p == p' && q == q' && keys == keys'
  {
    if ScopePreimage(p, q, keys) == ScopePreimage(p', q', keys') {
      var a, b := Canonical(keys), Canonical(keys');
      assert p + "|" + (q + "|" + Fields(a)) == ScopePreimage(p, q, keys);
      assert p' + "|" + (q' + "|" + Fields(b)) == ScopePreimage(p', q', keys');
      FirstSeparator(p, q + "|" + Fields(a), p', q' + "|" + Fields(b), '|');
      FirstSeparator(q, Fields(a), q', Fields(b), '|');
      CanonicalMembers(keys);
      CanonicalMembers(keys');
      FieldsInjective(a, b);
      assert forall n :: n in keys <==> n in keys';
    }
  }

  /** A name that can be cut at a '|' into two names in ascending order, neither of them blank. */
  predicate Splits(n: string) {
    exists i | 0 <= i < |n| :: n[i] == '|' && Less(n[..i], n[i + 1..]) && !Blank(n[..i]) && !Blank(n[i + 1..])
  }

  lemma {:induction false} LessThanPrefix(x: string, y: string, z: string)
    requires Less(x, y)
    ensures Less(x, y + z)
  {
    if x != "" && x[0] == y[0] {
      LessThanPrefix(x[1..], y[1..], z);
      assert (y + z)[1..] == y[1..] + z;
    }
  }

  lemma FieldsEndInBar(names: seq<string>) returns (n: string, rest: string)
    requires names != []
    ensures Fields(names) == n + "|" && names[0] <= n
    ensures if |names| == 1 then n == names[0] else n == names[0] + "|" + rest && names[1] <= rest
  {
    assert Fields(names) == names[0] + "|" + Fields(names[1..]);
    if |names| == 1 {
      n, rest := names[0], "";
    } else {
      var last;
      rest, last := FieldsEndInBar(names[1..]);
      n := names[0] + "|" + rest;
    }
  }

  lemma CanonicalOne(n: string)
    ensures Canonical({n}) == [n]
  {
    CanonicalHolds({n});
    LessIsTotal(n, n);
    SortedIsUnique(Canonical({n}), [n]) by { CanonicalIsSorted({n}); }
  }

  lemma CanonicalTwo(x: string, y: string)
    requires Less(x, y)
    ensures Canonical({x, y}) == [x, y]
  {
    LessIsTotal(x, y);
    CanonicalHolds({x, y});
    CanonicalIsSorted({x, y});
    SortedIsUnique(Canonical({x, y}), [x, y]);
  }

  lemma CanonicalLength(keys: set<string>)
    ensures |Canonical(keys)| == |keys|
  {
    CanonicalHolds(keys);
    assert |multiset(Canonical(keys))| == |multiset(keys)|;
  }

  lemma CanonicalAscends(keys: set<string>)
    requires |keys| > 1
    ensures |Canonical(keys)| > 1 && Less(Canonical(keys)[0], Canonical(keys)[1])
  {
    CanonicalLength(keys);
    var s := Canonical(keys);
    CanonicalMembers(keys - {s[0]});
    assert s[1] == Canonical(keys - {s[0]})[0];
    LessIsTotal(s[0], s[1]);
    assert Least(s[0], keys);
  }

  ghost predicate SameScope(p: string, q: string, keys: set<string>, keys': set<string>) {
    ScopePreimage(p, q, keys) == ScopePreimage(p, q, keys')
  }

  lemma SameScopeMeansSameFields(p: string, q: string, keys: set<string>, keys': set<string>)
    ensures SameScope(p, q, keys, keys') <==> Fields(Canonical(keys)) == Fields(Canonical(keys'))
  {
    var f, g := ScopePreimage(p, q, keys), ScopePreimage(p, q, keys');
    var k := |p| + 1 + |q| + 1;
    assert f[k..] == Fields(Canonical(keys)) && g[k..] == Fields(Canonical(keys'));
    assert f[..k] == g[..k];
    assert f == f[..k] + f[k..] && g == g[..k] + g[k..];
  }

  lemma OneElement(keys: set<string>, n: string)
    requires |keys| == 1 && n in keys
    ensures keys == {n}
  {
    assert |keys - {n}| == 0;
    assert keys == {n} + (keys - {n});
  }

  lemma ManyFilesCollide(p: string, q: string, keys: set<string>)
    requires |keys| > 1
    ensures exists keys' :: Receivable(keys') && keys' != keys && SameScope(p, q, keys, keys')
  {
    CanonicalLength(keys);
    var n, _ := FieldsEndInBar(Canonical(keys));
    CanonicalOne(n);
    assert Fields([n]) == n + "|";
    SameScopeMeansSameFields(p, q, keys, {n});
    assert n[|Canonical(keys)[0]|] == '|';
    BarIsNotBlank(n);
    assert Receivable({n}) && {n} != keys;
  }

  lemma FieldsOfOne(y: string)
    ensures Fields([y]) == y + "|"
  {
  }

  lemma FieldsOfTwo(x: string, y: string)
    ensures Fields([x, y]) == x + "|" + y + "|"
  {
    assert [x, y][1..] == [y];
    FieldsOfOne(y);
  }

  lemma SplitNameCollides(p: string, q: string, n: string)
    requires Splits(n)
    ensures exists keys' :: Receivable(keys') && keys' != {n} && SameScope(p, q, {n}, keys')
  {
    hide Canonical, Blank, Less, Fields, SameScope;
    var i :| 0 <= i < |n| && n[i] == '|' && Less(n[..i], n[i + 1..]) && !Blank(n[..i]) && !Blank(n[i + 1..]);
    var x, y := n[..i], n[i + 1..];
    CanonicalOne(n);
    CanonicalTwo(x, y);
    FieldsOfTwo(x, y);
    FieldsOfOne(n);
    assert n == x + "|" + y;
    SameScopeMeansSameFields(p, q, {n}, {x, y});
    assert |x| < |n| && x in {x, y};
    assert Receivable({x, y});
  }

  lemma LongerIsNotBlank(s: string, t: string)
    requires !Blank(s) && s <= t
    ensures !Blank(t)
  {
    var c :| c in s && !Space(c);
    assert c in t;
  }

  lemma SeveralFilesSplit(keys: set<string>, n: string)
    requires |keys| > 1 && Fields(Canonical(keys)) == n + "|" && Receivable(keys)
    ensures Splits(n)
  {
    CanonicalAscends(keys);
    CanonicalMembers(keys);
    var c := Canonical(keys);
    var m, rest := FieldsEndInBar(c);
    assert c[0] in keys && c[1] in keys;
    hide Canonical, Blank, Fields;
    assert m == (m + "|")[..|m|] && n == (n + "|")[..|n|];
    LongerIsNotBlank(c[1], rest);
    LessThanPrefix(c[0], c[1], rest[|c[1]|..]);
    assert c[1] + rest[|c[1]|..] == rest;
    assert n[..|c[0]|] == c[0] && n[|c[0]|] == '|' && n[|c[0]| + 1..] == rest;
  }

  lemma OneFileIsUnique(p: string, q: string, n: string, keys': set<string>)
    requires SameScope(p, q, {n}, keys') && !Splits(n) && Receivable(keys')
    ensures keys' == {n}
  {
    SameScopeMeansSameFields(p, q, {n}, keys');
    CanonicalOne(n);
    assert Fields([n]) == n + "|";
    if |keys'| > 1 {
      SeveralFilesSplit(keys', n);
    }
    CanonicalLength(keys');
    assert |keys'| == 1;
    var m, _ := FieldsEndInBar(Canonical(keys'));
    assert m == (m + "|")[..|m|] && n == (n + "|")[..|n|];
    CanonicalMembers(keys');
    OneElement(keys', n);
  }

  /** For one principal and problem, a set of file names shares its scope key with another set exactly when it has two
      or more names, or one that can be cut at a '|' into two ascending names. */
  lemma ScopeKeyCollides(p: string, q: string, keys: set<string>)
    requires Receivable(keys)
    ensures (exists keys' :: Receivable(keys') && keys' != keys && SameScope(p, q, keys, keys'))
            <==> |keys| > 1 || exists n :: keys == {n} && Splits(n)
  {
    if |keys| > 1 {
      ManyFilesCollide(p, q, keys);
    } else {
      var n :| n in keys;
      assert |keys - {n}| < |keys|;
      OneElement(keys, n);
      hide Splits, SameScope, Blank;
      if Splits(n) {
        SplitNameCollides(p, q, n);
      } else {
        forall keys' | Receivable(keys') && SameScope(p, q, keys, keys') ensures keys' == keys {
          OneFileIsUnique(p, q, n, keys');
        }
      }
    }
  }

  /** The problem ids submissions are made under: CSOJ ids, which are not empty and hold no '|'. */
  ghost predicate Ids(ids: set<string>) {
    forall i :: i in ids ==> i != "" && Avoids(i, '|')
  }

  /** The bytes can be read as principal `x`, problem `i` and one file `y`. */
  predicate ReadsAs(h: string, x: string, i: string, y: string) {
    h == x + "|" + i + "|" + (y + "|")
  }

  lemma JoinedNames(keys: set<string>) returns (y: string)
    requires Receivable(keys)
    ensures Fields(Canonical(keys)) == y + "|" && !Blank(y)
  {
    CanonicalLength(keys);
    CanonicalMembers(keys);
    var c := Canonical(keys);
    assert |keys| > 0;
    assert c[0] in keys;
    var rest;
    y, rest := FieldsEndInBar(c);
    LongerIsNotBlank(c[0], y);
  }

  /** Across principals, which the handler takes from the query as they are, and problems: a scope shares its key with
      one of another principal or problem exactly when its bytes can be read as a principal of another length, a known
      problem id and a file name that is not blank. */
  lemma ScopeKeyCollidesAcross(ids: set<string>, p: string, q: string, keys: set<string>)
    requires Ids(ids) && q in ids && Receivable(keys)
    ensures (exists p', q', keys' :: q' in ids && Receivable(keys') && (p', q') != (p, q)
               && ScopePreimage(p', q', keys') == ScopePreimage(p, q, keys))
            <==> exists x, i, y :: i in ids && !Blank(y) && |x| != |p| && ReadsAs(ScopePreimage(p, q, keys), x, i, y)
  {
    hide Canonical, Blank, Fields, Less;
    var h := ScopePreimage(p, q, keys);
    forall p', q', keys' | q' in ids && Receivable(keys') && (p', q') != (p, q) && ScopePreimage(p', q', keys') == h
      ensures exists x, i, y :: i in ids && !Blank(y) && |x| != |p| && ReadsAs(h, x, i, y)
    {
      var y := JoinedNames(keys');
      assert ReadsAs(h, p', q', y);
      SameLengthSamePrincipal(p, q, Fields(Canonical(keys)), p', q', Fields(Canonical(keys')));
    }
    forall x, i, y | i in ids && !Blank(y) && |x| != |p| && ReadsAs(h, x, i, y)
      ensures exists p', q', keys' :: q' in ids && Receivable(keys') && (p', q') != (p, q)
                && ScopePreimage(p', q', keys') == h
    {
      CanonicalOne(y);
      FieldsOfOne(y);
      assert Receivable({y});
      assert ScopePreimage(x, i, {y}) == h;
      assert (x, i) != (p, q);
    }
  }

  lemma SameLengthSamePrincipal(p: string, q: string, f: string, p': string, q': string, f': string)
    requires Avoids(q, '|') && Avoids(q', '|') && p + "|" + q + "|" + f == p' + "|" + q' + "|" + f'
    ensures |p| == |p'| ==> p == p' && q == q'
  {
    var h := p + "|" + (q + "|" + f);
    assert h == p + "|" + q + "|" + f && p' + "|" + (q' + "|" + f') == p' + "|" + q' + "|" + f';
    if |p| == |p'| {
      assert p == h[..|p|] && p' == h[..|p|];
      assert q + "|" + f == h[|p| + 1..] && q' + "|" + f' == h[|p| + 1..];
      FirstSeparator(q, f, q', f', '|');
    }
  }

  /** So a principal with a '|' can take another's scope: the bytes of principal "a|cdj_X" are also those of "a". */
  lemma PrincipalsShareScope(x: string, y: string, n: string)
    requires x != "" && y != "" && Avoids(x, '|') && Avoids(y, '|') && !Blank(n)
    ensures ScopePreimage("a|" + x, y, {n}) == ScopePreimage("a", x, {y + "|" + n})
    ensures Receivable({n}) && Receivable({y + "|" + n})
  {
    CanonicalOne(n);
    CanonicalOne(y + "|" + n);
    hide Canonical;
    assert (y + "|" + n)[|y|] == '|';
    BarIsNotBlank(y + "|" + n);
    assert Fields([n]) == n + "|" && Fields([y + "|" + n]) == y + "|" + n + "|";
  }

  // --- the payload hash ---

  lemma {:induction false} ContentsInjective(a: seq<string>, f: map<string, string>, b: seq<string>,
                                             g: map<string, string>)
    requires Within(a, f) && Within(b, g)
    requires forall n :: n in a ==> Avoids(n, ':') && Avoids(f[n], '|')
    requires forall n :: n in b ==> Avoids(n, ':') && Avoids(g[n], '|')
    requires Contents(a, f) == Contents(b, g)
    ensures a == b && forall n :: n in a ==> f[n] == g[n]
  {
    if a != [] && b != [] {
      var n, m := a[0], b[0];
      var r, t := Contents(a[1..], f), Contents(b[1..], g);
      assert Contents(a, f) == n + ":" + (f[n] + "|" + r);
      assert Contents(b, g) == m + ":" + (g[m] + "|" + t);
      FirstSeparator(n, f[n] + "|" + r, m, g[m] + "|" + t, ':');
      FirstSeparator(f[n], r, g[m], t, '|');
      ContentsInjective(a[1..], f, b[1..], g);
      assert a == [n] + a[1..] && b == [m] + b[1..];
    }
  }

  /** Where no name holds a ':' and no content a '|', equal payload preimages mean equal files. */
  lemma PayloadIdentifies(f: map<string, string>, g: map<string, string>)
    requires AllAvoid(f.Keys, ':') && AllAvoid(g.Keys, ':')
    requires AllAvoid(f.Values, '|') && AllAvoid(g.Values, '|')
    ensures PayloadPreimage(f) == PayloadPreimage(g) <==> f == g
  {
    if PayloadPreimage(f) == PayloadPreimage(g) {
      CanonicalMembers(f.Keys);
      CanonicalMembers(g.Keys);
      forall n | n in f ensures Avoids(f[n], '|') {
        assert f[n] in f.Values;
      }
      forall n | n in g ensures Avoids(g[n], '|') {
        assert g[n] in g.Values;
      }
      ContentsInjective(Canonical(f.Keys), f, Canonical(g.Keys), g);
      assert forall n :: n in f <==> n in g;
    }
  }

  lemma {:induction false} ContentsAgree(names: seq<string>, f: map<string, string>, g: map<string, string>)
    requires Within(names, f) && Within(names, g)
    requires forall n :: n in names ==> f[n] == g[n]
    ensures Contents(names, f) == Contents(names, g)
  {
    if names != [] {
      ContentsAgree(names[1..], f, g);
    }
  }

  ghost predicate Distinguishes(keys: set<string>) {
    forall f: map<string, string>, g: map<string, string> ::
      f.Keys == keys && g.Keys == keys && PayloadPreimage(f) == PayloadPreimage(g) ==> f == g
  }

  function AllEmpty(keys: set<string>): map<string, string> {
    map n | n in keys :: ""
  }

  lemma TwoContents(s: seq<string>, f: map<string, string>)
    requires |s| > 1 && Within(s, f)
    ensures Contents(s, f) == s[0] + ":" + f[s[0]] + "|" + (s[1] + ":" + f[s[1]] + "|" + Contents(s[2..], f))
  {
    assert s[1..][1..] == s[2..];
    assert Contents(s[1..], f) == s[1] + ":" + f[s[1]] + "|" + Contents(s[2..], f);
  }

  /** Moving one separator between two files leaves the bytes the same. */
  lemma SeparatorMoves(m: string, n: string, tail: string)
    ensures var bar := "|" + n + ":";
            m + ":" + bar + "|" + (n + ":" + "" + "|" + tail) == m + ":" + "" + "|" + (n + ":" + bar + "|" + tail)
  {
    var x := m + ":" + "|" + n + ":";
    var bar := "|" + n + ":";
    assert m + ":" + bar == x && m + ":" + "" + "|" + (n + ":") == x;
    assert m + ":" + bar + "|" + (n + ":" + "" + "|" + tail) == x + "|" + (n + ":" + "|" + tail);
    assert m + ":" + "" + "|" + (n + ":" + bar + "|" + tail) == x + (bar + "|" + tail);
    assert "|" + (n + ":" + "|" + tail) == bar + "|" + tail;
  }

  lemma FirstTwo(keys: set<string>)
    requires |keys| > 1
    ensures var s := Canonical(keys);
            |s| > 1 && Within(s, AllEmpty(keys)) && s[0] != s[1] && s[0] !in s[2..] && s[1] !in s[2..]
  {
    var s := Canonical(keys);
    CanonicalLength(keys);
    CanonicalMembers(keys);
    var k1 := keys - {s[0]};
    CanonicalMembers(k1);
    assert s[1..] == Canonical(k1);
    assert s[1] == Canonical(k1)[0] && s[1..][1..] == s[2..];
    CanonicalMembers(k1 - {s[1]});
    assert s[2..] == Canonical(k1 - {s[1]});
    assert s[1] in s[1..];
  }

  lemma TwoFilesCollide(keys: set<string>)
    requires |keys| > 1
    ensures !Distinguishes(keys)
  {
    FirstTwo(keys);
    var s := Canonical(keys);
    var m, n, bar := s[0], s[1], "|" + s[1] + ":";
    var f, g := AllEmpty(keys)[m := bar], AllEmpty(keys)[n := bar];
    assert f.Keys == keys && g.Keys == keys;
    hide Canonical, Contents, Less;
    TwoContents(s, f);
    TwoContents(s, g);
    ContentsAgree(s[2..], f, g);
    SeparatorMoves(m, n, Contents(s[2..], f));
    assert PayloadPreimage(f) == PayloadPreimage(g);
    assert f[m] != g[m];
  }

  lemma OneFileDistinguished(n: string, f: map<string, string>, g: map<string, string>)
    requires f.Keys == g.Keys == {n} && PayloadPreimage(f) == PayloadPreimage(g)
    ensures f == g
  {
    CanonicalOne(n);
    var k := |n| + 1;
    assert Contents([n], f) == n + ":" + f[n] + "|" && Contents([n], g) == n + ":" + g[n] + "|";
    assert f[n] == Contents([n], f)[k..|Contents([n], f)| - 1];
    assert g[n] == Contents([n], g)[k..|Contents([n], g)| - 1];
  }

  /** Within one scope the payload hash input tells all contents apart exactly when there is at most one file. */
  lemma PayloadDistinguishesOneFile(keys: set<string>)
    ensures Distinguishes(keys) <==> |keys| <= 1
  {
    if |keys| > 1 {
      TwoFilesCollide(keys);
    } else {
      forall f: map<string, string>, g: map<string, string>
        | f.Keys == keys && g.Keys == keys && PayloadPreimage(f) == PayloadPreimage(g)
        ensures f == g
      {
        if keys == {} {
          assert f == map[] && g == map[];
        } else {
          var n :| n in keys;
          OneElement(keys, n);
          OneFileDistinguished(n, f, g);
        }
      }
    }
  }
}
