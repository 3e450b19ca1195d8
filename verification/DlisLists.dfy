/** Linked lists in a pool: several lists, none of which shares an entry with another, over one link per entry. */
module DlisLists {
  const NULL: int := -1
  const FREE: (int, int) := (-1, -1)

  /** The entry at place k of a list, NULL behind its end. */
  function At(list: seq<int>, k: int): int { if 0 <= k < |list| then list[k] else NULL }

  function Last(list: seq<int>): int { At(list, |list| - 1) }

  /** links are the pointers of the entries; home says where an entry is: in which list, and at which place. */
  ghost predicate Lists(links: seq<int>, lists: seq<seq<int>>, home: seq<(int, int)>)
  {
    && |home| == |links|
    && (forall f, k :: 0 <= f < |lists| && 0 <= k < |lists[f]| ==>
          && 0 <= lists[f][k] < |links| && home[lists[f][k]] == (f, k)
          && links[lists[f][k]] == At(lists[f], k + 1))
    && (forall i :: 0 <= i < |links| && home[i] == FREE ==> links[i] == NULL)
    && (forall i :: 0 <= i < |links| && home[i] != FREE ==> Housed(lists, home[i], i))
  }

  ghost predicate Housed(lists: seq<seq<int>>, h: (int, int), i: int)
  {
    0 <= h.0 < |lists| && 0 <= h.1 < |lists[h.0]| && lists[h.0][h.1] == i
  }

  /** The links after an entry is put at the end of a list. */
  function Linked(links: seq<int>, last: int, i: int): (r: seq<int>)
    ensures |r| == |links|
  {
    if 0 <= last < |links| then links[last := i] else links
  }

  /** An entry of no list goes to the end of one. */
  lemma ListsAppend(links: seq<int>, lists: seq<seq<int>>, home: seq<(int, int)>, f: nat, i: nat)
    requires Lists(links, lists, home) && f < |lists| && i < |links| && home[i] == FREE
    ensures Lists(Linked(links, Last(lists[f]), i), lists[f := lists[f] + [i]], home[i := (f, |lists[f]|)])
  {
    var l, s, h := Linked(links, Last(lists[f]), i), lists[f := lists[f] + [i]], home[i := (f, |lists[f]|)];
    var n := |lists[f]|;
    if n > 0 {
      assert home[lists[f][n - 1]] == (f, n - 1);
    }
    forall g, k | 0 <= g < |s| && 0 <= k < |s[g]|
      ensures 0 <= s[g][k] < |l| && h[s[g][k]] == (g, k) && l[s[g][k]] == At(s[g], k + 1)
    {
      if g == f && k == n {
      } else {
        assert s[g][k] == lists[g][k];
        assert home[lists[g][k]] == (g, k);
      }
    }
    forall j | 0 <= j < |l| && h[j] != FREE ensures Housed(s, h[j], j) {
      if j != i {
        assert Housed(lists, home[j], j);
      }
    }
  }

  /** A new entry, in no list. */
  lemma ListsNew(links: seq<int>, lists: seq<seq<int>>, home: seq<(int, int)>)
    requires Lists(links, lists, home)
    ensures Lists(links + [NULL], lists, home + [FREE])
  {
    var l, h := links + [NULL], home + [FREE];
    forall j | 0 <= j < |l| && h[j] != FREE ensures Housed(lists, h[j], j) {
      assert j < |links| && h[j] == home[j];
    }
  }

  /** A new list, with nothing in it. */
  lemma ListsMore(links: seq<int>, lists: seq<seq<int>>, home: seq<(int, int)>)
    requires Lists(links, lists, home)
    ensures Lists(links, lists + [[]], home)
  {
    var s := lists + [[]];
    forall j | 0 <= j < |links| && home[j] != FREE ensures Housed(s, home[j], j) {
      assert Housed(lists, home[j], j);
    }
  }

  lemma ListsAt(links: seq<int>, lists: seq<seq<int>>, home: seq<(int, int)>, f: nat, k: nat)
    requires Lists(links, lists, home) && f < |lists| && k < |lists[f]|
    ensures 0 <= lists[f][k] < |links| == |home|
    ensures home[lists[f][k]] == (f, k) && links[lists[f][k]] == At(lists[f], k + 1)
  {
  }

  lemma ListsIn(links: seq<int>, lists: seq<seq<int>>, home: seq<(int, int)>, f: nat)
    requires Lists(links, lists, home) && f < |lists|
    ensures |home| == |links| && forall k :: 0 <= k < |lists[f]| ==> 0 <= lists[f][k] < |links|
  {
  }

  /** No list comes back to an entry: following the links, the places only grow. */
  lemma NoCycle(links: seq<int>, lists: seq<seq<int>>, home: seq<(int, int)>, i: nat)
    requires Lists(links, lists, home) && i < |links| && links[i] != NULL
    ensures 0 <= links[i] < |links| && home[i] != FREE && home[links[i]] == (home[i].0, home[i].1 + 1)
  {
    assert Housed(lists, home[i], i);
    var f, k := home[i].0, home[i].1;
    assert home[lists[f][k]] == (f, k);
    assert home[lists[f][k + 1]] == (f, k + 1);
  }

  lemma ListsLast(links: seq<int>, lists: seq<seq<int>>, home: seq<(int, int)>, f: nat)
    requires Lists(links, lists, home) && f < |lists|
    ensures if lists[f] == [] then Last(lists[f]) == NULL
            else 0 <= Last(lists[f]) < |links| == |home| && home[Last(lists[f])] == (f, |lists[f]| - 1)
  {
  }
}
