/** `posts.sort((a, b) => dateOf(b) - dateOf(a))`: newest first. Date parsing
    is abstracted as `dateKey`, a total map from a date string to an integer
    time, so every comparison here is consistent. The engine's sort is
    stable for a consistent comparator, so it is modelled as a stable
    insertion sort. A date that does not parse (the `''` of a post without
    a date included) is outside this model: see the README. */
module PostSort {
  import opened Posts

  /** Adjacent posts are in non-increasing date order. */
  predicate NewestFirst(s: seq<Post>, dateKey: string -> int) {
    forall i :: 0 <= i < |s| - 1 ==> dateKey(s[i].date) >= dateKey(s[i + 1].date)
  }

  /** Puts `p` before the first post that is not newer than it. */
  function Insert(p: Post, sorted: seq<Post>, dateKey: string -> int): (r: seq<Post>)
    ensures |r| == |sorted| + 1
    ensures multiset(r) == multiset(sorted) + multiset{p}
    ensures r[0] == p || (sorted != [] && r[0] == sorted[0])
  {
    if sorted == [] || dateKey(sorted[0].date) <= dateKey(p.date) then [p] + sorted
    else
      var rest := Insert(p, sorted[1..], dateKey);
      assert sorted == [sorted[0]] + sorted[1..];
      assert multiset([sorted[0]] + rest) == multiset{sorted[0]} + multiset(rest);
      [sorted[0]] + rest
  }

  /** Inserting into a list that is newest first keeps it newest first. */
  lemma {:induction false} InsertKeepsOrder(p: Post, sorted: seq<Post>, dateKey: string -> int)
    requires NewestFirst(sorted, dateKey)
    ensures NewestFirst(Insert(p, sorted, dateKey), dateKey)
  {
    var r := Insert(p, sorted, dateKey);
    if sorted == [] || dateKey(sorted[0].date) <= dateKey(p.date) {
      forall i | 0 <= i < |r| - 1
        ensures dateKey(r[i].date) >= dateKey(r[i + 1].date)
      {
        if i > 0 {
          assert r[i] == sorted[i - 1] && r[i + 1] == sorted[i];
        }
      }
    } else {
      var rest := Insert(p, sorted[1..], dateKey);
      assert r == [sorted[0]] + rest;
      InsertKeepsOrder(p, sorted[1..], dateKey);
      forall i | 0 <= i < |r| - 1
        ensures dateKey(r[i].date) >= dateKey(r[i + 1].date)
      {
        if i > 0 {
          assert r[i] == rest[i - 1] && r[i + 1] == rest[i];
        }
      }
    }
  }

  /** The posts newest first: a permutation of `s` in date order. */
  function SortNewestFirst(s: seq<Post>, dateKey: string -> int): (r: seq<Post>)
    ensures |r| == |s|
    ensures multiset(r) == multiset(s)
    ensures NewestFirst(r, dateKey)
  {
    if s == [] then []
    else
      var sortedTail := SortNewestFirst(s[1..], dateKey);
      assert s == [s[0]] + s[1..];
      InsertKeepsOrder(s[0], sortedTail, dateKey);
      Insert(s[0], sortedTail, dateKey)
  }

  /** Adjacent order gives the order of every pair. */
  lemma {:induction false} NewestFirstPairwise(s: seq<Post>, dateKey: string -> int, i: int, j: int)
    requires NewestFirst(s, dateKey)
    requires 0 <= i <= j < |s|
    ensures dateKey(s[i].date) >= dateKey(s[j].date)
    decreases j - i
  {
    if i < j {
      NewestFirstPairwise(s, dateKey, i + 1, j);
    }
  }

  /** The posts of `s` whose date key is `k`, in their order in `s`. */
  function DatedAt(s: seq<Post>, k: int, dateKey: string -> int): seq<Post> {
    if s == [] then []
    else (if dateKey(s[0].date) == k then [s[0]] else []) + DatedAt(s[1..], k, dateKey)
  }

  lemma {:induction false} InsertKeepsTies(p: Post, t: seq<Post>, k: int, dateKey: string -> int)
    ensures DatedAt(Insert(p, t, dateKey), k, dateKey)
         == (if dateKey(p.date) == k then [p] else []) + DatedAt(t, k, dateKey)
  {
    var r := Insert(p, t, dateKey);
    if t == [] || dateKey(t[0].date) <= dateKey(p.date) {
      assert r == [p] + t && r[1..] == t;
    } else {
      var rest := Insert(p, t[1..], dateKey);
      assert r == [t[0]] + rest && r[1..] == rest;
      InsertKeepsTies(p, t[1..], k, dateKey);
      assert DatedAt(t, k, dateKey) == (if dateKey(t[0].date) == k then [t[0]] else []) + DatedAt(t[1..], k, dateKey);
    }
  }

  /** Stability: posts with equal date keys keep their relative order. */
  lemma {:induction false} SortIsStable(s: seq<Post>, k: int, dateKey: string -> int)
    ensures DatedAt(SortNewestFirst(s, dateKey), k, dateKey) == DatedAt(s, k, dateKey)
  {
    if s != [] {
      SortIsStable(s[1..], k, dateKey);
      InsertKeepsTies(s[0], SortNewestFirst(s[1..], dateKey), k, dateKey);
    }
  }
}
