/** Joining fields with a separator, as the source does in its composite keys. */
module Separators {
  /** A field that avoids the separator ends at the first one. */
  lemma FirstSeparator<T>(x: seq<T>, y: seq<T>, x': seq<T>, y': seq<T>, sep: T)
    requires sep !in x && sep !in x'
    requires x + [sep] + y == x' + [sep] + y'
    ensures x == x' && y == y'
  {
    var s, s' := x + [sep] + y, x' + [sep] + y';
    assert s[|x|] == sep && s'[|x'|] == sep;
    assert forall i :: 0 <= i < |x| ==> s[i] == x[i];
    assert forall i :: 0 <= i < |x'| ==> s'[i] == x'[i];
    assert |x| == |x'|;
    assert x == s[..|x|] && x' == s'[..|x'|];
    assert y == s[|x| + 1..] && y' == s'[|x'| + 1..];
  }

  // --- three fields ---

  /** The separator stands in `s` at a place before `end` and not before `start`. */
  predicate Stands(sep: char, s: string, start: nat, end: int) {
    exists k | start <= k < |s| && k < end :: s[k] == sep
  }

  /** The first field has the separator after its first character, the second has it anywhere unless it is nothing else,
      or the third has it before its last character. */
  predicate Shared(sep: char, o: string, c: string, p: string) {
    || Stands(sep, o, 1, |o|)
    || (Stands(sep, c, 0, |c|) && c != [sep])
    || Stands(sep, p, 0, |p| - 1)
  }

  function Joined(sep: char, o: string, c: string, p: string): string {
    o + ([sep] + (c + ([sep] + p)))
  }

  /** Where the characters of a joined key come from. */
  lemma JoinedAt(sep: char, o: string, c: string, p: string)
    ensures var k := Joined(sep, o, c, p);
            && |k| == |o| + |c| + |p| + 2 && k[|o|] == sep && k[|o| + |c| + 1] == sep
            && (forall i :: 0 <= i < |o| ==> k[i] == o[i])
            && (forall i :: 0 <= i < |c| ==> k[|o| + 1 + i] == c[i])
            && (forall i :: 0 <= i < |p| ==> k[|o| + |c| + 2 + i] == p[i])
  {
    var k := Joined(sep, o, c, p);
    assert k == o + [sep] + c + [sep] + p;
  }

  lemma SameLengths(sep: char, o: string, c: string, p: string, o': string, c': string, p': string)
    requires Joined(sep, o, c, p) == Joined(sep, o', c', p')
    ensures |o| == |o'| && |c| == |c'| ==> (o, c, p) == (o', c', p')
  {
    if |o| == |o'| && |c| == |c'| {
      var k, j := Joined(sep, o, c, p), |o| + |c| + 1;
      assert k == o + [sep] + c + [sep] + p && k == o' + [sep] + c' + [sep] + p';
      assert k[..|o|] == o && k[..|o|] == o';
      assert k[|o| + 1..j] == c && k[|o| + 1..j] == c';
      assert k[j + 1..] == p && k[j + 1..] == p';
    }
  }

  lemma SharedHasSeparator(sep: char, o: string, c: string, p: string, o': string, c': string, p': string)
    requires o != "" && c != "" && p != "" && o' != "" && c' != "" && p' != ""
    requires Joined(sep, o, c, p) == Joined(sep, o', c', p') && (o, c, p) != (o', c', p')
    ensures Shared(sep, o, c, p)
  {
    var k := Joined(sep, o, c, p);
    JoinedAt(sep, o, c, p);
    JoinedAt(sep, o', c', p');
    var i, j := |o'|, |o'| + |c'| + 1;
    assert k[i] == sep && k[j] == sep && 1 <= i && i + 2 <= j <= |k| - 2;
    if i < |o| {
      assert o[i] == sep;
    } else if j > |o| + |c| + 1 {
      assert p[j - |o| - |c| - 2] == sep;
    } else if i > |o| {
      assert c[i - |o| - 1] == sep;
    } else if j < |o| + |c| + 1 {
      assert c[j - |o| - 1] == sep;
    }
    SameLengths(sep, o, c, p, o', c', p');
  }

  /** Moving the cut from between two fields to a separator inside one of them. */
  lemma CutMoves(sep: char, x: string, y: string, z: string)
    ensures x + [sep] + y + ([sep] + z) == x + ([sep] + (y + ([sep] + z)))
  {
  }

  lemma SeparatorCuts(sep: char, s: string, k: nat)
    requires k < |s| && s[k] == sep
    ensures s == s[..k] + [sep] + s[k + 1..]
  {
  }

  lemma SeparatorShares(sep: char, o: string, c: string, p: string) returns (o': string, c': string, p': string)
    requires o != "" && c != "" && p != "" && Shared(sep, o, c, p)
    ensures o' != "" && c' != "" && p' != ""
    ensures Joined(sep, o, c, p) == Joined(sep, o', c', p') && (o, c, p) != (o', c', p')
  {
    if Stands(sep, o, 1, |o|) {
      var k :| 1 <= k < |o| && o[k] == sep;
      SeparatorCuts(sep, o, k);
      CutMoves(sep, o[..k], o[k + 1..], c + ([sep] + p));
      CutMoves(sep, o[k + 1..], c, p);
      o', c', p' := o[..k], o[k + 1..] + [sep] + c, p;
    } else if Stands(sep, p, 0, |p| - 1) {
      var k :| 0 <= k < |p| && k < |p| - 1 && p[k] == sep;
      SeparatorCuts(sep, p, k);
      CutMoves(sep, c, p[..k], p[k + 1..]);
      CutMoves(sep, p[..k], p[k + 1..], "");
      assert p == p[..k] + ([sep] + p[k + 1..]);
      o', c', p' := o, c + [sep] + p[..k], p[k + 1..];
    } else {
      var k :| 0 <= k < |c| && c[k] == sep;
      SeparatorCuts(sep, c, k);
      CutMoves(sep, c[..k], c[k + 1..], p);
      if k > 0 {
        o', c', p' := o, c[..k], c[k + 1..] + [sep] + p;
        assert c[k + 1..] + [sep] + p == c[k + 1..] + ([sep] + p);
      } else {
        CutMoves(sep, o, c[..k], c[k + 1..] + ([sep] + p));
        o', c', p' := o + [sep] + c[..k], c[k + 1..], p;
      }
    }
  }

  /** Three fields that are not empty share their joined string with three others exactly when the separator stands at
      one of those places. */
  lemma JoinedIsShared(sep: char, o: string, c: string, p: string)
    requires o != "" && c != "" && p != ""
    ensures (exists o': string, c': string, p': string ::
               o' != "" && c' != "" && p' != "" && Joined(sep, o', c', p') == Joined(sep, o, c, p)
               && (o', c', p') != (o, c, p))
            <==> Shared(sep, o, c, p)
  {
    hide Joined, Shared;
    if Shared(sep, o, c, p) {
      var o', c', p' := SeparatorShares(sep, o, c, p);
    }
    forall o': string, c': string, p': string | o' != "" && c' != "" && p' != ""
                                                && Joined(sep, o', c', p') == Joined(sep, o, c, p)
                                                && (o', c', p') != (o, c, p)
      ensures Shared(sep, o, c, p)
    {
      SharedHasSeparator(sep, o, c, p, o', c', p');
    }
  }
}
