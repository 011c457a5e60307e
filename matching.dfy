/** The closed-form meaning of the three counters: which entries of the first
    collection have a case-insensitive match in the second. */
module Matching {
  import opened IgnoreCase

  /** Some name of `names` equals `n` ignoring case. */
  ghost predicate HasNameMatch(n: string, names: seq<string>)
  {
    exists j :: 0 <= j < |names| && EqualsIgnoreCase(n, names[j])
  }

  /** The positions of `names1` whose name has a match in `names2`. */
  ghost function MatchedPositions(names1: seq<string>, names2: seq<string>): set<int>
  {
    set i | 0 <= i < |names1| && HasNameMatch(names1[i], names2)
  }

  /** Some key of `m` equals `k` ignoring case and maps to a value equal to `v` ignoring case. */
  ghost predicate HasEntryMatch(k: string, v: string, m: map<string, string>)
  {
    exists k2 :: k2 in m && EqualsIgnoreCase(k, k2) && EqualsIgnoreCase(v, m[k2])
  }

  /** The keys of `m1` whose entry has a match in `m2`. */
  ghost function MatchedKeys(m1: map<string, string>, m2: map<string, string>): set<string>
  {
    set k | k in m1 && HasEntryMatch(k, m1[k], m2)
  }

  /** Extending the scanned prefix of the first list by one position adds one
      to the count exactly when that position has a match, whatever came before. */
  lemma MatchedPositionsStep(names1: seq<string>, names2: seq<string>, i: int)
    requires 0 <= i < |names1|
    ensures |MatchedPositions(names1[..i + 1], names2)|
         == |MatchedPositions(names1[..i], names2)| + (if HasNameMatch(names1[i], names2) then 1 else 0)
  {
    var before := MatchedPositions(names1[..i], names2);
    var after := MatchedPositions(names1[..i + 1], names2);
    assert i !in before;
    if HasNameMatch(names1[i], names2) {
      assert after == before + {i};
    } else {
      assert after == before;
    }
  }

  /** The name count is at most the length of the first list, and zero when
      either list is empty. */
  lemma {:induction false} MatchedPositionsBounds(names1: seq<string>, names2: seq<string>)
    ensures 0 <= |MatchedPositions(names1, names2)| <= |names1|
    ensures names1 == [] || names2 == [] ==> |MatchedPositions(names1, names2)| == 0
    decreases |names1|
  {
    if names1 != [] {
      var n := |names1| - 1;
      MatchedPositionsBounds(names1[..n], names2);
      MatchedPositionsStep(names1, names2, n);
      assert names1[..n + 1] == names1;
    }
    if names2 == [] {
      assert MatchedPositions(names1, names2) == {};
    }
  }

  /** Each entry of the first list counts on its own: appending a name that
      has a match adds one even when the same name is already in the list. */
  lemma DuplicatesCountEach(names1: seq<string>, n: string, names2: seq<string>)
    ensures |MatchedPositions(names1 + [n], names2)|
         == |MatchedPositions(names1, names2)| + (if HasNameMatch(n, names2) then 1 else 0)
  {
    var ext := names1 + [n];
    MatchedPositionsStep(ext, names2, |names1|);
    assert ext[..|names1| + 1] == ext;
    assert ext[..|names1|] == names1;
  }

  /** Only keys of the first map are counted. */
  lemma MatchedKeysWithin(m1: map<string, string>, m2: map<string, string>)
    ensures MatchedKeys(m1, m2) <= m1.Keys
  {
  }

  /** Moving one key from the pending set to the visited ones adds one to
      the number of visited keys in `counted` exactly when that key is in it. */
  lemma VisitOneMore<T>(counted: set<T>, all: set<T>, pending: set<T>, k: T)
    requires pending <= all && k in pending
    ensures |counted * (all - (pending - {k}))| == |counted * (all - pending)| + (if k in counted then 1 else 0)
  {
    var before := counted * (all - pending);
    if k in counted {
      assert counted * (all - (pending - {k})) == before + {k};
    } else {
      assert counted * (all - (pending - {k})) == before;
    }
  }

  /** The key count is at most the size of the first map, and zero when either
      map is empty. */
  lemma MatchedKeysBounds(m1: map<string, string>, m2: map<string, string>)
    ensures 0 <= |MatchedKeys(m1, m2)| <= |m1|
    ensures |m1| == 0 || |m2| == 0 ==> |MatchedKeys(m1, m2)| == 0
  {
    SubsetCardinality(MatchedKeys(m1, m2), m1.Keys);
    if |m2| == 0 {
      assert m2 == map[];
      assert MatchedKeys(m1, m2) == {};
    }
  }

  lemma {:induction false} SubsetCardinality<T>(a: set<T>, b: set<T>)
    requires a <= b
    ensures |a| <= |b|
    decreases |b|
  {
    if a != {} {
      var x :| x in a;
      SubsetCardinality(a - {x}, b - {x});
    }
  }

  /** A set of names each of which is the name at some position of `P` has no
      more elements than `P`. */
  lemma {:induction false} CoveredByPositions(names: seq<string>, P: set<int>, K: set<string>)
    requires forall k :: k in K ==> exists i :: i in P && 0 <= i < |names| && names[i] == k
    ensures |K| <= |P|
    decreases K
  {
    if K != {} {
      var k :| k in K;
      var i :| i in P && 0 <= i < |names| && names[i] == k;
      CoveredByPositions(names, P - {i}, K - {k});
    }
  }
}
