/**
 * Rows of a table are kept in a map from primary key to row.  A queryset
 * filter is modelled by scanning the keys below the table's next
 * autoincrement value in ascending order.
 */
module Tables {
  import opened Wrappers

  type Id = nat

  predicate Increasing(s: seq<Id>) {
    forall i, j :: 0 <= i < j < |s| ==> s[i] < s[j]
  }

  /** `filter(...)` with an ascending order on the primary key: the keys below `n` that satisfy `p`. */
  function Select(n: nat, p: Id -> bool): (r: seq<Id>)
    ensures Increasing(r)
    ensures forall k :: 0 <= k < |r| ==> r[k] < n
    ensures forall i: Id :: i in r <==> i < n && p(i)
  {
    if n == 0 then []
    else
      var r := Select(n - 1, p);
      if p(n - 1) then r + [n - 1] else r
  }

  /** `get(...)` on a filter that matches at most one row: some key below `n` that satisfies `p`. */
  function Find(n: nat, p: Id -> bool): (r: Option<Id>)
    ensures r.Some? ==> r.value < n && p(r.value)
    ensures r.None? <==> forall i: Id :: i < n ==> !p(i)
  {
    if n == 0 then None
    else if p(n - 1) then Some(n - 1)
    else Find(n - 1, p)
  }

  /** An increasing sequence whose every element is `k` holds `k` at most once. */
  lemma IncreasingSingle(s: seq<Id>, k: Id)
    requires Increasing(s) && k in s && forall j :: j in s ==> j == k
    ensures s == [k]
  {
    assert s[0] in s;
    if |s| > 1 {
      FirstTwoDiffer(s);
      assert false;
    }
  }

  lemma FirstTwoDiffer(s: seq<Id>)
    requires Increasing(s) && |s| > 1
    ensures s[0] in s && s[1] in s && s[0] != s[1]
  {
  }
}
