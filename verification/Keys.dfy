/** The two hash inputs of a submission, pkg/controller/leases.go: computeScopeKey and computePayloadHash. The model
    stops at what is handed to SHA-256. In the scope input, which is text, a character stands for a code point, and
    UTF-8 keeps their order; in the payload input it stands for a byte. */
module Keys {

  // --- Go's string order ---

  predicate Less(a: string, b: string) {
    b != "" && (a == "" || a[0] < b[0] || (a[0] == b[0] && Less(a[1..], b[1..])))
  }

  lemma {:induction false} LessIsTotal(a: string, b: string)
    ensures a == b || Less(a, b) || Less(b, a)
    ensures !(Less(a, b) && Less(b, a)) && !Less(a, a)
  {
    if a != "" {
      LessIsTotal(a[1..], a[1..]);
      if b != "" {
        LessIsTotal(a[1..], b[1..]);
      }
    }
  }

  /** At the first place where they differ the smaller name has ended, or has the smaller character. */
  predicate ComesFirst(a: string, b: string, i: nat) {
    i <= |a| && i < |b| && a[..i] == b[..i] && (i == |a| || a[i] < b[i])
  }

  lemma SameStart(a: string, b: string, i: nat)
    requires ComesFirst(a, b, i) && i > 0
    ensures a != "" && b != "" && a[0] == b[0]
  {
    assert a[0] == a[..i][0] && b[0] == b[..i][0];
  }

  lemma {:induction false} LessIsLexicographic(a: string, b: string)
    ensures Less(a, b) <==> exists i: nat :: ComesFirst(a, b, i)
  {
    if a == "" || b == "" || a[0] != b[0] {
      if Less(a, b) {
        assert ComesFirst(a, b, 0);
      }
      forall i: nat | ComesFirst(a, b, i) ensures Less(a, b) {
        if i > 0 {
          SameStart(a, b, i);
        }
      }
    } else {
      LessIsLexicographic(a[1..], b[1..]);
      if Less(a, b) {
        var i: nat :| ComesFirst(a[1..], b[1..], i);
        assert a[..i + 1] == [a[0]] + a[1..][..i] && b[..i + 1] == [b[0]] + b[1..][..i];
        assert ComesFirst(a, b, i + 1);
      }
      forall i: nat | ComesFirst(a, b, i) ensures Less(a, b) {
        assert i > 0 && a[1..][..i - 1] == a[..i][1..] && b[1..][..i - 1] == b[..i][1..];
        assert ComesFirst(a[1..], b[1..], i - 1);
      }
    }
  }

  lemma {:induction false} LessIsTransitive(a: string, b: string, c: string)
    requires Less(a, b) && !Less(c, b)
    ensures Less(a, c)
  {
    if a != "" && c != "" {
      if a[0] == b[0] == c[0] {
        LessIsTransitive(a[1..], b[1..], c[1..]);
      }
    }
  }

  ghost predicate Sorted(s: seq<string>) {
    forall i, j :: 0 <= i < j < |s| ==> !Less(s[j], s[i])
  }

  lemma NotLessIsTransitive(a: string, b: string, c: string)
    requires !Less(b, a) && !Less(c, b)
    ensures !Less(c, a)
  {
    if Less(c, a) {
      LessIsTransitive(c, a, b);
    }
  }

  /** The first `i` names are in place: nothing after one of them is smaller. */
  ghost predicate Placed(s: seq<string>, i: nat) {
    forall p, q :: 0 <= p < i && p < q < |s| ==> !Less(s[q], s[p])
  }

  /** The name at `i` is the smallest of those from there up to `j`. */
  ghost predicate SmallestUpTo(s: seq<string>, i: nat, j: nat)
    requires i < j <= |s|
  {
    forall q :: i < q < j ==> !Less(s[q], s[i])
  }

  lemma SwapKeeps(s: seq<string>, i: nat, j: nat, t: seq<string>)
    requires i < j < |s| && Placed(s, i) && SmallestUpTo(s, i, j) && Less(s[j], s[i]) && t == s[i := s[j]][j := s[i]]
    ensures Placed(t, i) && SmallestUpTo(t, i, j + 1) && multiset(t) == multiset(s)
  {
    LessIsTotal(s[j], s[i]);
    forall q | i < q < j ensures !Less(s[q], s[j]) {
      NotLessIsTransitive(s[j], s[i], s[q]);
    }
    hide Less;
  }

  /** The loop both functions sort with: whenever a later name is smaller, swap it to the front. */
  method ExchangeSort(names: array<string>)
    modifies names
    ensures Sorted(names[..])
    ensures multiset(names[..]) == multiset(old(names[..]))
  {
    hide Less;
    for i := 0 to names.Length
      invariant Placed(names[..], i)
      invariant multiset(names[..]) == multiset(old(names[..]))
    {
      for j := i + 1 to names.Length
        invariant Placed(names[..], i) && SmallestUpTo(names[..], i, j)
        invariant multiset(names[..]) == multiset(old(names[..]))
      {
        ghost var before := names[..];
        if Less(names[j], names[i]) {
          names[i], names[j] := names[j], names[i];
          SwapKeeps(before, i, j, names[..]);
        }
      }
    }
  }

  // --- the canonical list of names ---

  ghost predicate Least(m: string, keys: set<string>) {
    m in keys && forall k :: k in keys ==> !Less(k, m)
  }

  lemma {:induction false} LeastExists(keys: set<string>)
    requires keys != {}
    ensures exists m :: Least(m, keys)
  {
    var k :| k in keys;
    LessIsTotal(k, k);
    if keys == {k} {
      assert Least(k, keys);
    } else {
      LeastExists(keys - {k});
      var m :| Least(m, keys - {k});
      LessIsTotal(k, m);
      if Less(k, m) {
        forall x | x in keys ensures !Less(x, k) {
          if x != k {
            NotLessIsTransitive(k, m, x);
          }
        }
        assert Least(k, keys);
      } else {
        assert Least(m, keys);
      }
    }
  }

  /** The names in ascending order, least first: a definition that knows nothing of the exchange sort. */
  ghost function Canonical(keys: set<string>): seq<string> {
    if keys == {} then []
    else
      LeastExists(keys);
      var m :| Least(m, keys);
      [m] + Canonical(keys - {m})
  }

  lemma {:induction false} CanonicalHolds(keys: set<string>)
    ensures multiset(Canonical(keys)) == multiset(keys)
  {
    if keys != {} {
      var s := Canonical(keys);
      CanonicalHolds(keys - {s[0]});
      assert s == [s[0]] + Canonical(keys - {s[0]});
      assert keys == {s[0]} + (keys - {s[0]});
    }
  }

  lemma CanonicalMembers(keys: set<string>)
    ensures forall n :: n in Canonical(keys) <==> n in keys
  {
    CanonicalHolds(keys);
    assert forall n :: n in Canonical(keys) <==> n in multiset(Canonical(keys));
  }

  lemma {:induction false} CanonicalIsSorted(keys: set<string>)
    ensures Sorted(Canonical(keys))
  {
    if keys != {} {
      var s := Canonical(keys);
      CanonicalIsSorted(keys - {s[0]});
      CanonicalMembers(keys - {s[0]});
      assert s[1..] == Canonical(keys - {s[0]});
      assert Least(s[0], keys);
      hide Canonical, Less;
      forall i, j | 0 <= i < j < |s| ensures !Less(s[j], s[i]) {
        assert s[j] == s[1..][j - 1];
        assert i > 0 ==> s[i] == s[1..][i - 1];
      }
    }
  }

  lemma SameMultisetSameMembers(a: seq<string>, b: seq<string>)
    requires multiset(a) == multiset(b)
    ensures |a| == |b| && forall x :: x in a <==> x in b
  {
    assert |multiset(a)| == |multiset(b)|;
    assert forall x :: x in a <==> x in multiset(a);
    assert forall x :: x in b <==> x in multiset(b);
  }

  lemma TailMultiset(a: seq<string>)
    requires a != []
    ensures multiset(a[1..]) == multiset(a) - multiset{a[0]}
  {
    assert a == [a[0]] + a[1..];
  }

  /** A collection of names has one sorted listing. */
  lemma {:induction false} SortedIsUnique(a: seq<string>, b: seq<string>)
    requires Sorted(a) && Sorted(b) && multiset(a) == multiset(b)
    ensures a == b
  {
    SameMultisetSameMembers(a, b);
    if a != [] {
      LessIsTotal(a[0], b[0]);
      assert a[0] in b && b[0] in a;
      assert a[0] == b[0];
      TailMultiset(a);
      TailMultiset(b);
      SortedIsUnique(a[1..], b[1..]);
      assert a == [a[0]] + a[1..] && b == [b[0]] + b[1..];
    }
  }

  /** The names of a map in whatever order the map is walked, then sorted: always the canonical list. */
  method SortedNames(files: map<string, string>) returns (names: array<string>)
    ensures fresh(names) && names[..] == Canonical(files.Keys)
  {
    var rest := files.Keys;
    var listed: seq<string> := [];
    while rest != {}
      invariant rest <= files.Keys
      invariant multiset(listed) + multiset(rest) == multiset(files.Keys)
    {
      var name :| name in rest;
      assert rest == {name} + (rest - {name});
      listed, rest := listed + [name], rest - {name};
    }
    names := new string[|listed|](i requires 0 <= i < |listed| => listed[i]);
    assert names[..] == listed;
    ExchangeSort(names);
    CanonicalHolds(files.Keys);
    CanonicalIsSorted(files.Keys);
    SortedIsUnique(names[..], Canonical(files.Keys));
  }

  // --- the two preimages ---

  function Fields(names: seq<string>): string {
    if names == [] then "" else names[0] + "|" + Fields(names[1..])
  }

  ghost function ScopePreimage(principal: string, problemID: string, keys: set<string>): string {
    principal + "|" + problemID + "|" + Fields(Canonical(keys))
  }

  ghost predicate Within(names: seq<string>, files: map<string, string>) {
    forall n :: n in names ==> n in files
  }

  ghost function Contents(names: seq<string>, files: map<string, string>): string
    requires Within(names, files)
  {
    if names == [] then "" else names[0] + ":" + files[names[0]] + "|" + Contents(names[1..], files)
  }

  ghost function PayloadPreimage(files: map<string, string>): string {
    CanonicalMembers(files.Keys);
    Contents(Canonical(files.Keys), files)
  }

  lemma ContentsHead(names: seq<string>, files: map<string, string>)
    requires names != [] && Within(names, files)
    ensures Contents(names, files) == names[0] + ":" + files[names[0]] + "|" + Contents(names[1..], files)
  {
  }

  lemma ContentsOfNone(files: map<string, string>)
    ensures Contents([], files) == ""
  {
  }

  /** What is hashed depends on the map alone, not on the order in which its keys come out. */
  method ComputeScopeKey(principal: string, problemID: string, files: map<string, string>) returns (h: string)
    ensures h == ScopePreimage(principal, problemID, files.Keys)
  {
    var names := SortedNames(files);
    h := principal + "|" + problemID + "|";
    for k := 0 to names.Length
      invariant h + Fields(names[k..]) == ScopePreimage(principal, problemID, files.Keys)
    {
      assert names[k..][1..] == names[k + 1..];
      h := h + (names[k] + "|");
    }
  }

  method ComputePayloadHash(files: map<string, string>) returns (h: string)
    ensures h == PayloadPreimage(files)
  {
    var names := SortedNames(files);
    CanonicalMembers(files.Keys);
    hide Canonical, Less, Contents;
    h := "";
    assert Contents([], files) == "" by { ContentsOfNone(files); }
    for k := 0 to names.Length
      invariant Within(names[k..], files)
      invariant h + Contents(names[k..], files) == PayloadPreimage(files)
    {
      assert names[k..][1..] == names[k + 1..];
      assert names[k] in names[k..];
      ContentsHead(names[k..], files);
      h := h + (names[k] + ":" + files[names[k]] + "|");
    }
  }
}
