/** dist_t of libzmq (src/dist.cpp): messages go to every pipe of the first of three nested parts of an array.
    Every method keeps Valid, which says of the parts that the pipes were given that each has all the earlier
    parts of its message in front of it. */
module Dist {
  import opened PipeArray

  const DIST_ID: nat := 2

  // ----- What a pipe was given -----

  /** Every part follows the one before it in its message; messages come in order, none of them twice. */
  predicate GoodLog(log: seq<Part>)
  {
    forall i :: 0 <= i < |log| ==> Continues(log, i)
  }

  predicate Continues(log: seq<Part>, i: nat)
    requires i < |log|
  {
    if log[i].part == 0 then i == 0 || log[i - 1].msg < log[i].msg
    else i > 0 && log[i - 1] == Part(log[i].msg, log[i].part - 1)
  }

  /** So part k of a message has the parts before it right in front of it. */
  lemma {:induction false} GoodLogPrefix(log: seq<Part>, i: nat)
    requires GoodLog(log) && i < |log|
    ensures log[i].part <= i
    ensures forall k: nat :: k <= log[i].part ==> log[i - log[i].part + k] == Part(log[i].msg, k)
  {
    if log[i].part > 0 {
      assert Continues(log, i);
      GoodLogPrefix(log, i - 1);
    }
  }

  /** Nothing has come yet of part number parts of message msg. */
  predicate Before(log: seq<Part>, msg: nat, parts: nat)
  {
    log != [] ==> var l := log[|log| - 1]; l.msg < msg || (l.msg == msg && l.part < parts)
  }

  /** The last that came is part k of message msg. */
  predicate AtPart(log: seq<Part>, msg: nat, k: int)
  {
    log != [] && log[|log| - 1].msg == msg && log[|log| - 1].part == k
  }

  lemma LogGrows(log: seq<Part>, msg: nat, parts: nat)
    requires GoodLog(log) && Before(log, msg, parts) && (parts > 0 ==> AtPart(log, msg, parts - 1))
    ensures GoodLog(log + [Part(msg, parts)]) && AtPart(log + [Part(msg, parts)], msg, parts)
    ensures Before(log + [Part(msg, parts)], msg, parts + 1)
  {
    var l := log + [Part(msg, parts)];
    forall i | 0 <= i < |l| ensures Continues(l, i) {
      if i < |log| { assert Continues(log, i); }
    }
  }

  /** What the pipes were given, while the first m of them are sent a message. */
  ghost predicate LogsOver(s: seq<Pipe>, m: nat, msg: nat, parts: nat)
    requires m <= |s|
    reads s`log
  {
    && (forall p :: p in First(s, |s|) ==> GoodLog(p.log) && Before(p.log, msg, parts))
    && (parts > 0 ==> forall p :: p in First(s, m) ==> AtPart(p.log, msg, parts - 1))
  }

  /** Other pipes first, none of them added but new ones. */
  lemma LogsMove(s: seq<Pipe>, m: nat, t: seq<Pipe>, n: nat, msg: nat, parts: nat)
    requires m <= |s| && n <= |t| && LogsOver(s, m, msg, parts)
    requires First(t, n) <= First(s, m) || parts == 0
    requires forall p :: p in First(t, |t|) ==> p in First(s, |s|) || p.log == []
    ensures LogsOver(t, n, msg, parts)
  {
    hide First, GoodLog, Before, AtPart;
    NoLog(msg, parts);
  }

  /** msg_t: a small message is copied; any other counts the pipes and the sender that refer to its data. */
  class Msg {
    const isVsm: bool
    const more: bool
    var refs: int

    method AddRefs(n: nat)
      modifies this
      ensures refs == old(refs) + n
    {
      refs := refs + n;
    }

    method RmRefs(n: nat)
      modifies this
      ensures refs == old(refs) - n
    {
      refs := refs - n;
    }

    /** The sender gives up its own reference. */
    method Close()
      modifies this
      ensures refs == old(refs) - (if isVsm then 0 else 1)
    {
      if !isVsm {
        refs := refs - 1;
      }
    }
  }

  // ----- One message and its pipes -----

  datatype Regions = Regions(matched: set<Pipe>, active: set<Pipe>, eligible: set<Pipe>)

  /** What a pipe was given, how much of it can be read, and whether it takes more. */
  datatype Book = Book(log: seq<Part>, flushed: nat, out: Outbound)

  ghost predicate Got(was: Book, now: Book, part: Part, more: bool)
  {
    && was.out.Takes() && now.log == was.log + [part]
    && now.flushed == (if more then was.flushed else |now.log|)
  }

  ghost predicate Refused(was: Book, now: Book)
  {
    !was.out.Takes() && !now.out.Takes() && now.log == was.log && now.flushed == was.flushed
  }

  ghost function Books(ps: set<Pipe>): map<Pipe, Book>
    reads ps`log, ps`flushed, ps`out
  {
    map p | p in ps :: Book(p.log, p.flushed, p.out)
  }

  /** A pipe that does not match yet counted as done was given the part, or it left all three regions. */
  ghost predicate Turned(was: Regions, now: Regions, ok: bool, p: Pipe, done: set<Pipe>, done': set<Pipe>)
  {
    && p in was.matched && p !in done
    && (if ok then now == was && done' == done + {p}
        else
          && now == Regions(was.matched - {p}, was.active - {p}, was.eligible - {p})
          && done' == done)
  }

  ghost predicate Noted(was: map<Pipe, Book>, now: map<Pipe, Book>, ok: bool, p: Pipe, part: Part, more: bool)
  {
    && now.Keys == was.Keys && p in was
    && (forall q :: q in was && q != p ==> now[q] == was[q])
    && (if ok then Got(was[p], now[p], part, more) else Refused(was[p], now[p]))
  }

  /** In the middle of distribute: the pipes that are done have the part, those lost are passive, and nothing
      else has changed. */
  ghost predicate HandedOut(was: Regions, now: Regions, lost: set<Pipe>, failed: nat, done: set<Pipe>,
      books: map<Pipe, Book>, books': map<Pipe, Book>, part: Part, more: bool)
  {
    && now == Regions(was.matched - lost, was.active - lost, was.eligible - lost)
    && lost <= was.matched && |lost| == failed
    && books'.Keys == books.Keys
    && (forall p :: p in books && p in done && p !in lost ==> Got(books[p], books'[p], part, more))
    && (forall p :: p in books && p in lost ==> Refused(books[p], books'[p]))
    && (forall p :: p in books && p !in done && p !in lost ==> books'[p] == books[p])
  }

  lemma NothingHandedOut(was: Regions, books: map<Pipe, Book>, part: Part, more: bool)
    ensures HandedOut(was, was, {}, 0, {}, books, books, part, more)
  {
  }

  lemma HandOutStep(was: Regions, mid: Regions, now: Regions, lost: set<Pipe>, failed: nat, done: set<Pipe>,
      done': set<Pipe>, books: map<Pipe, Book>, noted: map<Pipe, Book>, noted': map<Pipe, Book>, part: Part,
      more: bool, ok: bool, p: Pipe)
    requires HandedOut(was, mid, lost, failed, done, books, noted, part, more)
    requires Turned(mid, now, ok, p, done, done') && Noted(noted, noted', ok, p, part, more)
    ensures HandedOut(was, now, if ok then lost else lost + {p}, if ok then failed else failed + 1, done', books,
                      noted', part, more)
  {
  }

  class Dist {
    const pipes: PipeArray
    var matching: nat
    var active: nat
    var eligible: nat
    var more: bool

    ghost var msg: nat     // the number of the message being sent, or to be sent next
    ghost var parts: nat   // how many of its parts have been sent

    ghost predicate Core()
      reads this, pipes, pipes.items`arrayIndex
    {
      && pipes.Valid() && pipes.id == DIST_ID
      && matching <= active <= eligible <= |pipes.items|
    }

    ghost predicate LogsOk()
      reads this, pipes, pipes.items`log
    {
      matching <= |pipes.items| && LogsOver(pipes.items, matching, msg, parts)
    }

    ghost predicate Valid()
      reads this, pipes, pipes.items`arrayIndex, pipes.items`log
    {
      && Core() && LogsOk()
      && (!more ==> active == eligible) && (more <==> parts > 0)
    }

    ghost function Matched(): set<Pipe>
      requires matching <= |pipes.items|
      reads this, pipes
    {
      First(pipes.items, matching)
    }

    ghost function Active(): set<Pipe>
      requires active <= |pipes.items|
      reads this, pipes
    {
      First(pipes.items, active)
    }

    ghost function Eligible(): set<Pipe>
      requires eligible <= |pipes.items|
      reads this, pipes
    {
      First(pipes.items, eligible)
    }

    ghost function All(): set<Pipe>
      reads this, pipes
    {
      First(pipes.items, |pipes.items|)
    }

    constructor ()
      ensures Valid() && pipes.items == [] && !more && fresh(pipes)
    {
      pipes := new PipeArray(DIST_ID);
      matching, active, eligible, more := 0, 0, 0, false;
      msg, parts := 0, 0;
    }

    /** The array part of attach. */
    method Place(p: Pipe)
      requires Core() && p !in pipes.items && (!more ==> active == eligible)
      modifies this`active, this`eligible, pipes`items, pipes.items`arrayIndex, p`arrayIndex
      ensures Core() && (!more ==> active == eligible)
      ensures All() == old(All()) + {p} && Matched() == old(Matched()) && Eligible() == old(Eligible()) + {p}
      ensures Active() == if more then old(Active()) else old(Active()) + {p}
    {
      hide First, Distinct, Swapped;
      pipes.AllDistinct();
      Pushed(pipes.items, p, eligible, matching);
      Pushed(pipes.items, p, eligible, active);
      pipes.PushBack(p);
      if more {
        pipes.Swap(eligible, |pipes.items| - 1);
        eligible := eligible + 1;
      } else {
        pipes.Swap(active, |pipes.items| - 1);
        active := active + 1;
        eligible := eligible + 1;
      }
    }

    /** attach */
    method Attach(p: Pipe)
      requires Valid() && p !in pipes.items && p.log == []
      modifies this`active, this`eligible, pipes`items, pipes.items`arrayIndex, p`arrayIndex
      ensures Valid()
      ensures All() == old(All()) + {p} && Matched() == old(Matched()) && Eligible() == old(Eligible()) + {p}
      ensures Active() == if more then old(Active()) else old(Active()) + {p}
    {
      hide First, LogsOver, PipeArray.Valid;
      ghost var s := pipes.items;
      Place(p);
      LogsMove(s, matching, pipes.items, matching, msg, parts);
    }

    method Match(p: Pipe)
      requires Valid() && p in pipes.items && !more
      modifies this`matching, pipes`items, pipes.items`arrayIndex
      ensures Valid() && All() == old(All()) && Active() == old(Active()) && Eligible() == old(Eligible())
      ensures Matched() == if p in Eligible() then old(Matched()) + {p} else old(Matched())
    {
      hide First, Distinct, LogsOver, Swapped;
      ghost var s := pipes.items;
      pipes.AllDistinct();
      FirstAt(s, pipes.Index(p), eligible);
      FirstAt(s, pipes.Index(p), matching);
      if pipes.Index(p) < matching {
        assert Matched() + {p} == Matched();
        return;
      }
      if pipes.Index(p) >= eligible {
        return;
      }
      Within(s, pipes.Index(p), matching, eligible);
      pipes.Swap(pipes.Index(p), matching);
      matching := matching + 1;
      LogsMove(s, matching - 1, pipes.items, matching, msg, parts);
    }

    /** A pipe joins the matching ones from within the eligible ones. */
    lemma Within(s: seq<Pipe>, i: nat, m: nat, e: nat)
      requires m <= i < e <= |s| && Distinct(s)
      ensures var t := Swapped(s, i, m);
              First(t, m + 1) == First(s, m) + {s[i]} && First(t, e) == First(s, e) && First(t, |t|) == First(s, |s|)
    {
      hide First, Swapped;
      SwapIn(s, i, m);
      FirstSwap(s, i, m, e);
      FirstSwap(s, i, m, |s|);
    }

    method Unmatch()
      requires Valid()
      modifies this`matching
      ensures Valid() && matching == 0
    {
      matching := 0;
    }

    /** The pipes that are eligible but do not match go to the front, one after the other. */
    method ReverseMatch()
      requires Valid() && !more
      modifies this`matching, pipes`items, pipes.items`arrayIndex
      ensures Valid() && All() == old(All()) && Active() == old(Active()) && Eligible() == old(Eligible())
      ensures Matched() == old(Eligible()) - old(Matched())
    {
      hide First, LogsOver, Reversing, Swapped, Distinct;
      ghost var s := pipes.items;
      pipes.AllDistinct();
      var prevMatching := matching;
      Unmatch();
      var i := prevMatching;
      ReversingStarts(s, i, eligible);
      while i < eligible
        invariant prevMatching <= i <= eligible && Core() && matching == i - prevMatching
        invariant Reversing(s, pipes.items, prevMatching, i, eligible)
        invariant From(pipes.items, s)
      {
        ReversingStep(s, pipes.items, prevMatching, i, eligible);
        pipes.Swap(i, matching);
        matching := matching + 1;
        i := i + 1;
      }
      ReversingEnds(s, pipes.items, prevMatching, eligible);
      LogsMove(s, 0, pipes.items, matching, msg, parts);
    }

    /** t is s with the pipes at m up to i at the front. */
    ghost predicate Reversing(s: seq<Pipe>, t: seq<Pipe>, m: nat, i: nat, e: nat)
      requires m <= i <= e <= |s|
    {
      && |t| == |s| && First(t, e) == First(s, e) && First(t, |s|) == First(s, |s|)
      && (forall j :: 0 <= j < i - m ==> t[j] == s[m + j])
      && (forall j :: i <= j < |s| ==> t[j] == s[j])
    }

    lemma ReversingStarts(s: seq<Pipe>, m: nat, e: nat)
      requires m <= e <= |s|
      ensures Reversing(s, s, m, m, e)
    {
    }

    lemma ReversingStep(s: seq<Pipe>, t: seq<Pipe>, m: nat, i: nat, e: nat)
      requires m <= i < e <= |s| && Reversing(s, t, m, i, e)
      ensures |t| == |s| && Reversing(s, Swapped(t, i, i - m), m, i + 1, e)
    {
      hide First;
      FirstSwap(t, i, i - m, e);
      FirstSwap(t, i, i - m, |s|);
    }

    lemma ReversingEnds(s: seq<Pipe>, t: seq<Pipe>, m: nat, e: nat)
      requires m <= e <= |s| && Reversing(s, t, m, e, e) && Distinct(s)
      ensures |t| == |s| && First(t, e - m) == First(s, e) - First(s, m)
      ensures First(t, e) == First(s, e) && First(t, |s|) == First(s, |s|)
    {
      hide First;
      Rest(s, t, m, e);
    }

    /** The places from m to e, at the front of t. */
    lemma Rest(s: seq<Pipe>, t: seq<Pipe>, m: nat, e: nat)
      requires m <= e <= |s| && |t| == |s| && Distinct(s)
      requires forall j :: 0 <= j < e - m ==> t[j] == s[m + j]
      ensures First(t, e - m) == First(s, e) - First(s, m)
    {
      hide First;
      forall p | p in First(t, e - m) ensures p in First(s, e) - First(s, m) {
        FirstIs(t, e - m, p);
        var j :| 0 <= j < e - m && t[j] == p;
        FirstAt(s, m + j, e);
        FirstAt(s, m + j, m);
      }
      forall p | p in First(s, e) - First(s, m) ensures p in First(t, e - m) {
        FirstIs(s, e, p);
        var k :| 0 <= k < e && s[k] == p;
        FirstAt(s, k, m);
        FirstIs(t, e - m, p);
        assert t[k - m] == p;
      }
    }

    /** The array part of activated. */
    method Promote(p: Pipe)
      requires Core() && p in pipes.items && (p !in Eligible() || eligible == |pipes.items|)
      requires !more ==> active == eligible
      modifies this`active, this`eligible, pipes`items, pipes.items`arrayIndex
      ensures Core() && (!more ==> active == eligible)
      ensures All() == old(All()) && Matched() == old(Matched()) && Eligible() == old(Eligible()) + {p}
      ensures Active() == if more then old(Active()) else old(Active()) + {p}
    {
      hide First, Distinct, Swapped;
      pipes.AllDistinct();
      FirstAll(pipes.items, p);
      FirstAt(pipes.items, pipes.Index(p), eligible);
      if eligible < |pipes.items| {
        Joins(pipes.items, pipes.Index(p), matching, active, eligible);
        pipes.Swap(pipes.Index(p), eligible);
        eligible := eligible + 1;
      } else {
        assert Eligible() + {p} == Eligible();
      }
      if !more && active < |pipes.items| {
        SwapSelf(pipes.items, active);
        pipes.Swap(eligible - 1, active);
        active := active + 1;
      }
    }

    /** activated: the pipe can be written to again.  The caller names pipes that are passive. */
    method Activated(p: Pipe)
      requires Valid() && p in pipes.items && (p !in Eligible() || eligible == |pipes.items|)
      modifies this`active, this`eligible, pipes`items, pipes.items`arrayIndex
      ensures Valid() && All() == old(All()) && Matched() == old(Matched())
      ensures Eligible() == old(Eligible()) + {p}
      ensures Active() == if more then old(Active()) else old(Active()) + {p}
    {
      hide First, LogsOver, PipeArray.Valid;
      ghost var s := pipes.items;
      Promote(p);
      LogsMove(s, matching, pipes.items, matching, msg, parts);
    }

    /** Each step of pipe_terminated, for one of the three counts: the pipe goes to the last of the first n, and
        then they are one less.  The first k, m and a are others, or stay the same as a whole. */
    method Leave(p: Pipe, n: nat, ghost k: nat, ghost m: nat, ghost a: nat, ghost e: nat) returns (n': nat)
      requires pipes.Valid() && p in pipes.items && k <= m <= n <= a <= e <= |pipes.items| &&
          p !in First(pipes.items, m)
      modifies pipes`items, pipes.items`arrayIndex
      ensures pipes.Valid() && p in pipes.items && From(pipes.items, old(pipes.items))
      ensures |pipes.items| == |old(pipes.items)| && m <= n'
      ensures n' == if p in First(old(pipes.items), n) then n - 1 else n
      ensures p !in First(pipes.items, n') && First(pipes.items, n') == First(old(pipes.items), n) - {p}
      ensures First(pipes.items, k) == First(old(pipes.items), k)
      ensures First(pipes.items, m) == First(old(pipes.items), m)
      ensures First(pipes.items, a) == First(old(pipes.items), a)
      ensures First(pipes.items, e) == First(old(pipes.items), e)
      ensures First(pipes.items, |pipes.items|) == First(old(pipes.items), |pipes.items|)
    {
      hide First, Distinct, Swapped;
      pipes.AllDistinct();
      n' := n;
      var i := pipes.Index(p);
      FirstAt(pipes.items, i, m);
      FirstAt(pipes.items, i, n);
      if i < n {
        Leaves(pipes.items, i, n, k);
        Leaves(pipes.items, i, n, m);
        Leaves(pipes.items, i, n, a);
        Leaves(pipes.items, i, n, e);
        Leaves(pipes.items, i, n, |pipes.items|);
        pipes.Swap(i, n - 1);
        n' := n - 1;
        FirstAll(pipes.items, p);
      }
    }

    /** pipe_terminated: the pipe leaves the matching, the active and the eligible ones, and the array. */
    method Depart(p: Pipe)
      requires Core() && p in pipes.items
      modifies this`matching, this`active, this`eligible, pipes`items, pipes.items`arrayIndex
      ensures Core() && All() == old(All()) - {p} && Matched() == old(Matched()) - {p}
      ensures Active() == old(Active()) - {p} && Eligible() == old(Eligible()) - {p}
      ensures old(active == eligible) ==> active == eligible
    {
      hide First, Distinct, PipeArray.Valid;
      FirstNone(pipes.items);
      matching := Leave(p, matching, 0, 0, active, eligible);
      active := Leave(p, active, matching, matching, eligible, eligible);
      eligible := Leave(p, eligible, matching, active, |pipes.items|, |pipes.items|);
      EraseBehind(p, matching, active, eligible);
    }

    /** The last step of pipe_terminated. */
    method EraseBehind(p: Pipe, ghost m: nat, ghost a: nat, ghost e: nat)
      requires pipes.Valid() && p in pipes.items && m <= a <= e <= |pipes.items| && p !in First(pipes.items, e)
      modifies pipes`items, pipes.items`arrayIndex
      ensures pipes.Valid() && e <= |pipes.items| && First(pipes.items, m) == First(old(pipes.items), m)
      ensures First(pipes.items, a) == First(old(pipes.items), a) && First(pipes.items, e) == First(old(pipes.items), e)
      ensures First(pipes.items, |pipes.items|) == First(old(pipes.items), |old(pipes.items)|) - {p}
    {
      hide First, Distinct;
      pipes.AllDistinct();
      var i := pipes.Index(p);
      FirstAt(pipes.items, i, e);
      Erased(pipes.items, i, m);
      Erased(pipes.items, i, a);
      Erased(pipes.items, i, e);
      pipes.Erase(p);
    }

    /** pipe_terminated */
    method PipeTerminated(p: Pipe)
      requires Valid() && p in pipes.items
      modifies this`matching, this`active, this`eligible, pipes`items, pipes.items`arrayIndex
      ensures Valid() && All() == old(All()) - {p} && Matched() == old(Matched()) - {p}
      ensures Active() == old(Active()) - {p} && Eligible() == old(Eligible()) - {p}
    {
      hide First, LogsOver, PipeArray.Valid;
      ghost var s, m := pipes.items, matching;
      Depart(p);
      LogsMove(s, m, pipes.items, matching, msg, parts);
    }

    // ----- Sending -----

    /** The array when the pipe at i goes from the matching ones to the passive ones. */
    function Demoted(s: seq<Pipe>, i: nat, m: nat, a: nat, e: nat): seq<Pipe>
      requires i < m <= a <= e <= |s|
    {
      Swapped(Swapped(Swapped(s, i, m - 1), m - 1, a - 1), a - 1, e - 1)
    }

    lemma DemotedIs(s: seq<Pipe>, i: nat, m: nat, a: nat, e: nat)
      requires i < m <= a <= e <= |s| && Distinct(s)
      ensures var t := Demoted(s, i, m, a, e);
              && |t| == |s| && First(t, i) == First(s, i) && First(t, |s|) == First(s, |s|)
              && First(t, m - 1) == First(s, m) - {s[i]} && First(t, a - 1) == First(s, a) - {s[i]}
              && First(t, e - 1) == First(s, e) - {s[i]}
      ensures Swapped(s, i, m - 1)[m - 1] == s[i] && Swapped(Swapped(s, i, m - 1), m - 1, a - 1)[a - 1] == s[i]
    {
      hide First, Swapped, Distinct;
      var s1 := Swapped(s, i, m - 1);
      var s2 := Swapped(s1, m - 1, a - 1);
      LeavesFour(s, i, m, i, a, e);
      DistinctSwap(s, i, m - 1);
      LeavesFour(s1, m - 1, a, i, m - 1, e);
      DistinctSwap(s1, m - 1, a - 1);
      LeavesFour(s2, a - 1, e, i, m - 1, a - 1);
    }

    lemma LeavesFour(s: seq<Pipe>, i: nat, n: nat, k1: nat, k2: nat, k3: nat)
      requires i < n <= |s| && Distinct(s)
      requires (k1 <= i || n <= k1 <= |s|) && (k2 <= i || n <= k2 <= |s|) && (k3 <= i || n <= k3 <= |s|)
      ensures var t := Swapped(s, i, n - 1);
              && t[n - 1] == s[i] && First(t, n - 1) == First(s, n) - {s[i]} && First(t, |s|) == First(s, |s|)
              && First(t, k1) == First(s, k1) && First(t, k2) == First(s, k2) && First(t, k3) == First(s, k3)
    {
      hide First, Swapped;
      Leaves(s, i, n, k1);
      Leaves(s, i, n, k2);
      Leaves(s, i, n, k3);
      Leaves(s, i, n, |s|);
    }

    /** pipes.swap (pipes.index (p), j) */
    method MoveTo(p: Pipe, j: nat)
      requires pipes.Valid() && p in pipes.items && j < |pipes.items|
      modifies pipes`items, pipes.items`arrayIndex
      ensures pipes.Valid() && p in pipes.items && pipes.Index(p) == j && From(pipes.items, old(pipes.items))
      ensures pipes.items == Swapped(old(pipes.items), old(pipes.Index(p)), j)
    {
      var i := pipes.Index(p);
      pipes.Swap(i, j);
      assert pipes.items[j] == p;
      pipes.Once(pipes.Index(p), j);
    }

    /** The three swaps of write when the pipe takes no more. */
    method Sink(p: Pipe)
      requires Core() && p in pipes.items && pipes.Index(p) < matching
      modifies this`matching, this`active, this`eligible, pipes`items, pipes.items`arrayIndex
      ensures pipes.Valid()
      ensures matching == old(matching) - 1 && active == old(active) - 1 && eligible == old(eligible) - 1
      ensures pipes.items == Demoted(old(pipes.items), old(pipes.Index(p)), old(matching), old(active), old(eligible))
    {
      hide First, Distinct, Swapped, PipeArray.Valid;
      MoveTo(p, matching - 1);
      matching := matching - 1;
      MoveTo(p, active - 1);
      active := active - 1;
      pipes.Swap(active, eligible - 1);
      eligible := eligible - 1;
    }

    /** A pipe that takes no more goes behind the eligible ones. */
    method Demote(p: Pipe)
      requires Core() && p in pipes.items && pipes.Index(p) < matching
      modifies this`matching, this`active, this`eligible, pipes`items, pipes.items`arrayIndex
      ensures Core() && |pipes.items| == |old(pipes.items)|
      ensures matching == old(matching) - 1 && active == old(active) - 1 && eligible == old(eligible) - 1
      ensures var i := old(pipes.Index(p));
              First(pipes.items, i) == First(old(pipes.items), i)
      ensures All() == old(All()) && Matched() == old(Matched()) - {p}
      ensures Active() == old(Active()) - {p} && Eligible() == old(Eligible()) - {p}
    {
      hide First, Distinct, Swapped, PipeArray.Valid, Demoted;
      pipes.AllDistinct();
      DemotedIs(pipes.items, pipes.Index(p), matching, active, eligible);
      Sink(p);
    }

    /** write */
    method Write(p: Pipe, more: bool) returns (ok: bool)
      requires Core() && p in pipes.items && pipes.Index(p) < matching
      modifies this`matching, this`active, this`eligible, pipes`items, pipes.items`arrayIndex, p`log, p`flushed, p`out
      ensures Core() && |pipes.items| == |old(pipes.items)| && All() == old(All())
      ensures ok == old(p.out).Takes() && (!ok ==> !p.out.Takes())
      ensures ok ==> matching == old(matching) && active == old(active) && eligible == old(eligible)
      ensures ok ==> pipes.items == old(pipes.items) && p.log == old(p.log) + [Part(msg, parts)]
      ensures ok ==> p.flushed == if more then old(p.flushed) else |p.log|
      ensures !ok ==> p.log == old(p.log) && p.flushed == old(p.flushed)
      ensures !ok ==> matching == old(matching) - 1 && active == old(active) - 1 && eligible == old(eligible) - 1
      ensures !ok ==> First(pipes.items, old(pipes.Index(p))) == First(old(pipes.items), old(pipes.Index(p)))
      ensures !ok ==> Matched() == old(Matched()) - {p}
      ensures !ok ==> Active() == old(Active()) - {p} && Eligible() == old(Eligible()) - {p}
    {
      hide First, PipeArray.Valid;
      ok := p.Write(Part(msg, parts), more);
      if !ok {
        Demote(p);
        return;
      }
      if !more {
        p.Flush();
      }
    }

    ghost function Parts(): Regions
      requires matching <= |pipes.items| && active <= |pipes.items| && eligible <= |pipes.items|
      reads this, pipes
    {
      Regions(Matched(), Active(), Eligible())
    }

    /** One turn of a loop of distribute. */
    method PushOne(i: nat, more: bool) returns (ok: bool, ghost p: Pipe)
      requires Core() && i < matching
      modifies this`matching, this`active, this`eligible, pipes`items, pipes.items`arrayIndex
      modifies pipes.items`log, pipes.items`flushed, pipes.items`out
      ensures Core() && All() == old(All()) && (ok ==> i + 1 <= matching) && (!ok ==> i <= matching)
      ensures matching + (if ok then 0 else 1) == old(matching)
      ensures active + (if ok then 0 else 1) == old(active) && eligible + (if ok then 0 else 1) == old(eligible)
      ensures Turned(old(Parts()), Parts(), ok, p, old(First(pipes.items, i)),
                     First(pipes.items, if ok then i + 1 else i))
      ensures Noted(old(Books(All())), Books(All()), ok, p, Part(msg, parts), more)
    {
      hide First, PipeArray.Valid, Distinct;
      var q := pipes.items[i];
      p := q;
      pipes.AllDistinct();
      FirstAt(pipes.items, i, i);
      FirstAt(pipes.items, i, matching);
      FirstAll(pipes.items, q);
      FirstNext(pipes.items, i);
      IndexOf(i);
      ok := Write(q, more);
    }

    /** The loops of distribute: they end although a failed write sets the index back. */
    method PushToMatching(more: bool) returns (failed: nat, ghost lost: set<Pipe>)
      requires Core()
      modifies this`matching, this`active, this`eligible, pipes`items, pipes.items`arrayIndex
      modifies pipes.items`log, pipes.items`flushed, pipes.items`out
      ensures Core() && All() == old(All()) && lost <= old(Matched()) && |lost| == failed
      ensures Matched() == old(Matched()) - lost && Active() == old(Active()) - lost
      ensures Eligible() == old(Eligible()) - lost
      ensures matching == old(matching) - failed && active == old(active) - failed && eligible == old(eligible) - failed
      ensures forall p :: p in old(pipes.items) && p in Matched() ==>
                p.log == old(p.log) + [Part(msg, parts)] && p.flushed == if more then old(p.flushed) else |p.log|
      ensures forall p :: p in old(pipes.items) && p !in Matched() ==>
                p.log == old(p.log) && p.flushed == old(p.flushed)
      ensures forall p :: p in old(Matched()) ==> (p in lost <==> !old(p.out).Takes())
    {
      hide First, PipeArray.Valid, HandedOut, Turned, Noted, Books, Parts;
      ghost var was, books := Parts(), Books(All());
      BooksNow();
      failed, lost := 0, {};
      var i: nat := 0;
      FirstNone(pipes.items);
      NothingHandedOut(was, books, Part(msg, parts), more);
      while i < matching
        invariant Core() && i <= matching && All() == old(All())
        invariant matching == old(matching) - failed
        invariant active == old(active) - failed && eligible == old(eligible) - failed
        invariant HandedOut(was, Parts(), lost, failed, First(pipes.items, i), books, Books(All()),
                            Part(msg, parts), more)
        decreases matching - i
      {
        FromAll(pipes.items, old(pipes.items));
        ghost var mid, done, noted := Parts(), First(pipes.items, i), Books(All());
        ghost var p;
        var ok;
        ok, p := PushOne(i, more);
        HandOutStep(was, mid, Parts(), lost, failed, done, First(pipes.items, if ok then i + 1 else i), books, noted,
                   Books(All()), Part(msg, parts), more, ok, p);
        if ok {
          i := i + 1;
        } else {
          failed, lost := failed + 1, lost + {p};
        }
      }
      BooksOpened(was, books, failed, lost, i, more);
    }

    lemma BooksNow()
      requires Core()
      ensures Parts() == Regions(Matched(), Active(), Eligible()) && Books(All()).Keys == All()
      ensures forall p :: p in pipes.items ==> p in All() && Books(All())[p] == Book(p.log, p.flushed, p.out)
    {
    }

    /** What the books say of the pipes once the loop is over. */
    lemma BooksOpened(was: Regions, books: map<Pipe, Book>, failed: nat, lost: set<Pipe>, i: nat, more: bool)
      requires Core() && i == matching
      requires HandedOut(was, Parts(), lost, failed, First(pipes.items, i), books, Books(All()), Part(msg, parts), more)
      ensures Matched() == was.matched - lost && Active() == was.active - lost && Eligible() == was.eligible - lost
      ensures lost <= was.matched && |lost| == failed && books.Keys == All()
      ensures forall p :: p in All() && p in Matched() ==>
                p.log == books[p].log + [Part(msg, parts)] && p.flushed == if more then books[p].flushed else |p.log|
      ensures forall p :: p in All() && p !in Matched() ==> p.log == books[p].log && p.flushed == books[p].flushed
      ensures forall p :: p in was.matched && p in books ==> (p in lost <==> !books[p].out.Takes())
    {
      hide First;
    }

    lemma IndexOf(i: nat)
      requires pipes.Valid() && i < |pipes.items|
      ensures pipes.Index(pipes.items[i]) == i
    {
    }

    /** distribute: each matching pipe is written to once, or becomes passive.  In the end the references to the
        message are those of the pipes that have it. */
    method Distribute(m: Msg) returns (ghost lost: set<Pipe>)
      requires Core()
      modifies this`matching, this`active, this`eligible, pipes`items, pipes.items`arrayIndex
      modifies pipes.items`log, pipes.items`flushed, pipes.items`out, m
      ensures Core() && All() == old(All()) && lost <= old(Matched())
      ensures Matched() == old(Matched()) - lost && Active() == old(Active()) - lost
      ensures Eligible() == old(Eligible()) - lost
      ensures old(matching) - matching == old(active) - active == old(eligible) - eligible
      ensures forall p :: p in old(pipes.items) && p in Matched() ==>
                p.log == old(p.log) + [Part(msg, parts)] && p.flushed == if m.more then old(p.flushed) else |p.log|
      ensures forall p :: p in old(pipes.items) && p !in Matched() ==>
                p.log == old(p.log) && p.flushed == old(p.flushed)
      ensures forall p :: p in old(Matched()) ==> (p in lost <==> !old(p.out).Takes())
      ensures !m.isVsm ==> m.refs == old(m.refs) - 1 + matching
    {
      hide First, PipeArray.Valid;
      lost := {};
      if matching == 0 {
        FirstNone(pipes.items);
        m.Close();
        return;
      }
      var failed;
      if m.isVsm {
        failed, lost := PushToMatching(m.more);
        m.Close();
        return;
      }
      m.AddRefs(matching - 1);
      failed, lost := PushToMatching(m.more);
      if failed != 0 {
        m.RmRefs(failed);
      }
    }

    /** The logs after part number parts of the message. */
    lemma PartLogs(log: seq<Part>, now: seq<Part>, msg: nat, parts: nat)
      requires GoodLog(log) && Before(log, msg, parts)
      requires now == log || (now == log + [Part(msg, parts)] && (parts > 0 ==> AtPart(log, msg, parts - 1)))
      ensures GoodLog(now) && Before(now, msg, parts + 1) && Before(now, msg + 1, 0)
      ensures now != log ==> AtPart(now, msg, parts)
    {
      if now != log {
        LogGrows(log, msg, parts);
      }
    }

    lemma LogsParts(s: seq<Pipe>, m: nat, msg: nat, parts: nat, p: Pipe)
      requires m <= |s| && LogsOver(s, m, msg, parts) && p in s
      ensures GoodLog(p.log) && Before(p.log, msg, parts)
      ensures parts > 0 && p in First(s, m) ==> AtPart(p.log, msg, parts - 1)
    {
      hide First, GoodLog, Before, AtPart;
      FirstAll(s, p);
    }

    lemma LogsWhole(s: seq<Pipe>, m: nat, msg: nat, parts: nat)
      requires m <= |s|
      requires forall p :: p in s ==> GoodLog(p.log) && Before(p.log, msg, parts)
      requires forall p :: p in First(s, m) ==> parts > 0 ==> AtPart(p.log, msg, parts - 1)
      ensures LogsOver(s, m, msg, parts)
    {
      hide GoodLog, Before, AtPart;
    }

    /** send_to_matching: one part of a message to the pipes that match. */
    method SendToMatching(m: Msg) returns (ghost lost: set<Pipe>)
      requires Valid()
      modifies this, pipes`items, pipes.items`arrayIndex, pipes.items`log, pipes.items`flushed, pipes.items`out, m
      ensures Valid() && more == m.more
      ensures (msg, parts) == if m.more then (old(msg), old(parts) + 1) else (old(msg) + 1, 0)
      ensures All() == old(All()) && lost <= old(Matched()) && Matched() == old(Matched()) - lost
      ensures Eligible() == old(Eligible()) - lost
      ensures Active() == if m.more then old(Active()) - lost else Eligible()
      ensures m.more ==> old(matching) - matching == old(active) - active
      ensures forall p :: p in old(pipes.items) && p in Matched() ==>
                && p.log == old(p.log) + [Part(old(msg), old(parts))]
                && p.flushed == if more then old(p.flushed) else |p.log|
      ensures forall p :: p in old(pipes.items) && p !in Matched() ==>
                p.log == old(p.log) && p.flushed == old(p.flushed)
      ensures forall p :: p in old(Matched()) ==> (p in lost <==> !old(p.out).Takes())
      ensures !m.isVsm ==> m.refs == old(m.refs) - 1 + matching
    {
      hide First, PipeArray.Valid, GoodLog, Before, AtPart, LogsOver;
      var msgMore := m.more;
      ghost var before := pipes.items;
      forall p | p in before
        ensures GoodLog(p.log) && Before(p.log, msg, parts)
        ensures parts > 0 && p in Matched() ==> AtPart(p.log, msg, parts - 1)
      {
        LogsParts(before, matching, msg, parts, p);
      }
      lost := Distribute(m);
      forall p | p in before
        ensures GoodLog(p.log) && Before(p.log, msg, parts + 1) && Before(p.log, msg + 1, 0)
        ensures p in Matched() ==> AtPart(p.log, msg, parts)
      {
        PartLogs(old(p.log), p.log, msg, parts);
      }
      FromAll(pipes.items, before);
      if !msgMore {
        active := eligible;
        msg, parts := msg + 1, 0;
      } else {
        parts := parts + 1;
      }
      more := msgMore;
      LogsWhole(pipes.items, matching, msg, parts);
    }

    /** send_to_all: one part of a message to every active pipe.  A message goes on as it began: once a part was
        sent to matching pipes only, the others must not get the next one. */
    method SendToAll(m: Msg) returns (ghost lost: set<Pipe>)
      requires Valid() && (more ==> matching == active)
      modifies this, pipes`items, pipes.items`arrayIndex, pipes.items`log, pipes.items`flushed, pipes.items`out, m
      ensures Valid() && more == m.more && (more ==> matching == active)
      ensures All() == old(All()) && lost <= old(Active()) && Matched() == old(Active()) - lost
      ensures Eligible() == old(Eligible()) - lost
      ensures Active() == if m.more then old(Active()) - lost else Eligible()
      ensures forall p :: p in old(pipes.items) && p in Matched() ==>
                && p.log == old(p.log) + [Part(old(msg), old(parts))]
                && p.flushed == if more then old(p.flushed) else |p.log|
      ensures forall p :: p in old(pipes.items) && p !in Matched() ==>
                p.log == old(p.log) && p.flushed == old(p.flushed)
      ensures forall p :: p in old(Active()) ==> (p in lost <==> !old(p.out).Takes())
      ensures !m.isVsm ==> m.refs == old(m.refs) - 1 + matching
    {
      hide First, PipeArray.Valid, GoodLog, Before, AtPart, LogsOver;
      LogsMove(pipes.items, matching, pipes.items, active, msg, parts);
      matching := active;
      lost := SendToMatching(m);
    }
  }

  lemma NoLog(msg: nat, parts: nat)
    ensures GoodLog([]) && Before([], msg, parts)
  {
  }
}
