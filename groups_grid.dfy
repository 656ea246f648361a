/**
 * The ordering `DisplayGroupsGrid` shows Groups in: a copy of the list,
 * sorted by creation time from the most recent to the oldest.
 */
module DisplayGroupsGrid {
  import opened Domain

  /**
   * The comparator: positive when `a` is older than `b` (so `a` goes after
   * `b`), negative when newer, zero when both were created at once.
   */
  function CompareByDate(a: Group, b: Group): (c: int)
    ensures c == 1 <==> a.createdAt < b.createdAt
    ensures c == -1 <==> a.createdAt > b.createdAt
    ensures c == 0 <==> a.createdAt == b.createdAt
  {
    if a.createdAt < b.createdAt then 1
    else if a.createdAt > b.createdAt then -1
    else 0
  }

  /** Swapping the arguments negates the comparison. */
  lemma CompareAntisymmetric(a: Group, b: Group)
    ensures CompareByDate(a, b) == -CompareByDate(b, a)
  {
  }

  /** The comparison is transitive where it places one Group before another. */
  lemma CompareTransitive(a: Group, b: Group, c: Group)
    requires CompareByDate(a, b) <= 0 && CompareByDate(b, c) <= 0
    ensures CompareByDate(a, c) <= 0
  {
  }

  /** Most recent first: every Group was created no earlier than the ones after it. */
  predicate MostRecentFirst(groups: seq<Group>) {
    forall i, j :: 0 <= i < j < |groups| ==> groups[i].createdAt >= groups[j].createdAt
  }

  /** In a list ordered most recent first, nothing after the head is newer than it. */
  lemma NoneNewerThanHead(sorted: seq<Group>, x: Group)
    requires MostRecentFirst(sorted) && |sorted| > 0 && x in sorted[1..]
    ensures x.createdAt <= sorted[0].createdAt
  {
    var k :| 0 <= k < |sorted[1..]| && sorted[1..][k] == x;
    assert sorted[k + 1] == x;
  }

  /** Putting a Group no older than any of an ordered list in front keeps it ordered. */
  lemma NewestPrepended(h: Group, rest: seq<Group>)
    requires MostRecentFirst(rest)
    requires forall x :: x in rest ==> x.createdAt <= h.createdAt
    ensures MostRecentFirst([h] + rest)
  {
    forall i, j | 0 <= i < j < |[h] + rest| ensures ([h] + rest)[i].createdAt >= ([h] + rest)[j].createdAt {
      assert ([h] + rest)[j] == rest[j - 1];
      if i > 0 { assert ([h] + rest)[i] == rest[i - 1]; } else { assert rest[j - 1] in rest; }
    }
  }

  /**
   * Places `g` into a list already ordered most recent first: before the
   * first Group it is strictly newer than, so that Groups created at the same
   * time keep their relative order.
   */
  function InsertByDate(g: Group, sorted: seq<Group>): (r: seq<Group>)
    requires MostRecentFirst(sorted)
    ensures |r| == |sorted| + 1
    ensures forall x :: x in r <==> x == g || x in sorted
    ensures MostRecentFirst(r)
    ensures multiset(r) == multiset(sorted) + multiset{g}
    decreases |sorted|
  {
    if |sorted| == 0 then [g]
    else if CompareByDate(g, sorted[0]) < 0 then [g] + sorted
    else
      var rest := InsertByDate(g, sorted[1..]);
      assert sorted == [sorted[0]] + sorted[1..];
      forall x | x in rest ensures x.createdAt <= sorted[0].createdAt {
        if x != g { NoneNewerThanHead(sorted, x); }
      }
      NewestPrepended(sorted[0], rest);
      [sorted[0]] + rest
  }

  /**
   * `sortedGroupsByDate`: a new list holding the same Groups, most recent
   * first. The argument is a value, so the caller's list is left as it was.
   */
  function SortGroupsByDate(groups: seq<Group>): (r: seq<Group>)
    ensures MostRecentFirst(r)
    ensures multiset(r) == multiset(groups)
    ensures |r| == |groups|
  {
    if |groups| == 0 then []
    else
      assert groups == groups[..|groups| - 1] + [groups[|groups| - 1]];
      InsertByDate(groups[|groups| - 1], SortGroupsByDate(groups[..|groups| - 1]))
  }
}
