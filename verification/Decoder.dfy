/** decoder_base_t of libzmq (src/decoder.hpp), over any machine of steps.  Its copying in bulk, its returns in
    the middle of the data and its zero-copy path do what feeding the machine byte by byte does. */
module Decoder {
  import opened Bytes

  /** What a step leaves: where the machine is, how many bytes it wants next, and what decode is to return. */
  datatype Ran<S> = Ran(state: S, toRead: nat, rc: int)

  /** A machine on its way to the next step: got is what has been put at the destination the last step named. */
  datatype Machine<S> = Machine(state: S, toRead: nat, got: bytes)

  /** The steps of a decoder.  rank bounds how many of them in a row ask for no bytes. */
  datatype Program<!S> = Program(step: (S, bytes) -> Ran<S>, rank: S -> nat)

  datatype Settled<S> = Settled(m: Machine<S>, rc: int)

  datatype Traced<S> = Traced(m: Machine<S>, results: seq<int>)

  /** A step that returns something leaves bytes to be read; one that wants no bytes and returns nothing makes
      progress. */
  ghost predicate Sound<S(!new)>(p: Program<S>)
  {
    forall s, got ::
      var r := p.step(s, got);
      (r.rc != 0 ==> r.toRead > 0) && (r.rc == 0 && r.toRead == 0 ==> p.rank(r.state) < p.rank(s))
  }

  /** The steps taken once everything is there. */
  ghost function Settle<S(!new)>(p: Program<S>, m: Machine<S>): (t: Settled<S>)
    requires Sound(p)
    ensures t.m.toRead > 0
    decreases p.rank(m.state)
  {
    if m.toRead > 0 then Settled(m, 0)
    else
      var r := p.step(m.state, m.got);
      var next := Machine(r.state, r.toRead, []);
      if r.rc != 0 || r.toRead > 0 then Settled(next, r.rc) else Settle(p, next)
  }

  lemma SettledAlready<S(!new)>(p: Program<S>, m: Machine<S>)
    requires Sound(p) && m.toRead > 0
    ensures Settle(p, m) == Settled(m, 0)
  {
  }

  function Put<S>(m: Machine<S>, b: bytes): Machine<S>
    requires |b| <= m.toRead
  {
    Machine(m.state, m.toRead - |b|, m.got + b)
  }

  function Results(rc: int): seq<int> { if rc == 0 then [] else [rc] }

  /** The machine fed byte by byte, and all that its steps return. */
  ghost function Trace<S(!new)>(p: Program<S>, m: Machine<S>, data: bytes): (t: Traced<S>)
    requires Sound(p) && m.toRead > 0
    ensures t.m.toRead > 0
  {
    if data == [] then Traced(m, [])
    else
      var n := |data| - 1;
      var before := Trace(p, m, data[..n]);
      var now := Settle(p, Put(before.m, [data[n]]));
      Traced(now.m, before.results + Results(now.rc))
  }

  lemma TraceNone<S(!new)>(p: Program<S>, m: Machine<S>)
    requires Sound(p) && m.toRead > 0
    ensures Trace(p, m, []) == Traced(m, [])
  {
  }

  /** However the data is divided. */
  lemma {:induction false} TraceSplit<S(!new)>(p: Program<S>, m: Machine<S>, a: bytes, b: bytes)
    requires Sound(p) && m.toRead > 0
    ensures Trace(p, m, a + b).m == Trace(p, Trace(p, m, a).m, b).m
    ensures Trace(p, m, a + b).results == Trace(p, m, a).results + Trace(p, Trace(p, m, a).m, b).results
    decreases |b|
  {
    hide Sound, Settle;
    if b == [] {
      assert a + b == a;
    } else {
      var n := |b| - 1;
      var ab := a + b;
      TraceSplit(p, m, a, b[..n]);
      assert |ab| - 1 == |a| + n && ab[..|a| + n] == a + b[..n] && ab[|a| + n] == b[n];
    }
  }

  /** Bytes that a step is still waiting for can be put at its destination at once. */
  lemma {:induction false} Bulk<S(!new)>(p: Program<S>, m: Machine<S>, chunk: bytes)
    requires Sound(p) && 0 < |chunk| <= m.toRead
    ensures var t := Settle(p, Put(m, chunk));
            Trace(p, m, chunk) == Traced(t.m, Results(t.rc))
    decreases |chunk|
  {
    hide Sound;
    var n := |chunk| - 1;
    if n == 0 {
      assert chunk[..n] == [] && chunk == [chunk[0]];
    } else {
      Bulk(p, m, chunk[..n]);
      assert m.got + chunk[..n] + [chunk[n]] == m.got + chunk;
    }
  }

  // ----- What any decoder may rely on -----

  /** A state that notes what its steps return. */
  ghost predicate Notes<S(!new)>(p: Program<S>, log: S -> seq<int>)
  {
    forall s, got :: var r := p.step(s, got); log(r.state) == if r.rc != 0 then log(s) + [r.rc] else log(s)
  }

  lemma SettleNotes<S(!new)>(p: Program<S>, log: S -> seq<int>, m: Machine<S>)
    requires Sound(p) && Notes(p, log)
    ensures var t := Settle(p, m);
            log(t.m.state) == if t.rc != 0 then log(m.state) + [t.rc] else log(m.state)
    decreases p.rank(m.state)
  {
    if m.toRead == 0 {
      var r := p.step(m.state, m.got);
      if r.rc == 0 && r.toRead == 0 {
        SettleNotes(p, log, Machine(r.state, r.toRead, []));
      }
    }
  }

  /** Everything that a step returns is returned to the caller, once and in order. */
  lemma {:induction false} EachReturned<S(!new)>(p: Program<S>, log: S -> seq<int>, m: Machine<S>, data: bytes)
    requires Sound(p) && m.toRead > 0 && Notes(p, log)
    ensures var t := Trace(p, m, data); log(t.m.state) == log(m.state) + t.results
    decreases |data|
  {
    hide Sound, Notes, Settle;
    if data != [] {
      var n := |data| - 1;
      EachReturned(p, log, m, data[..n]);
      SettleNotes(p, log, Put(Trace(p, m, data[..n]).m, [data[n]]));
    }
  }

  /** A state that keeps the bytes its steps are given. */
  ghost predicate Keeps<S(!new)>(p: Program<S>, taken: S -> bytes)
  {
    forall s, got :: taken(p.step(s, got).state) == taken(s) + got
  }

  lemma SettleKeeps<S(!new)>(p: Program<S>, taken: S -> bytes, m: Machine<S>)
    requires Sound(p) && Keeps(p, taken)
    ensures var t := Settle(p, m).m; taken(t.state) + t.got == taken(m.state) + m.got
    decreases p.rank(m.state)
  {
    if m.toRead == 0 {
      var r := p.step(m.state, m.got);
      if r.rc == 0 && r.toRead == 0 {
        SettleKeeps(p, taken, Machine(r.state, r.toRead, []));
      }
    }
  }

  /** Every byte is given to a step, once and in order, or waits for the next step. */
  lemma {:induction false} EachGiven<S(!new)>(p: Program<S>, taken: S -> bytes, m: Machine<S>, data: bytes)
    requires Sound(p) && m.toRead > 0 && Keeps(p, taken)
    ensures var t := Trace(p, m, data).m; taken(t.state) + t.got == taken(m.state) + m.got + data
    decreases |data|
  {
    hide Sound, Keeps, Settle;
    if data == [] {
      assert taken(m.state) + m.got + data == taken(m.state) + m.got;
    } else {
      var n := |data| - 1;
      EachGiven(p, taken, m, data[..n]);
      var before := Trace(p, m, data[..n]).m;
      SettleKeeps(p, taken, Put(before, [data[n]]));
      assert taken(before.state) + (before.got + [data[n]]) == taken(before.state) + before.got + [data[n]];
      assert data == data[..n] + [data[n]];
    }
  }

  /** A state that knows how many bytes the next step wants. */
  ghost predicate Knows<S(!new)>(p: Program<S>, wanted: S -> nat)
  {
    forall s, got :: var r := p.step(s, got); wanted(r.state) == r.toRead
  }

  lemma SettleKnows<S(!new)>(p: Program<S>, wanted: S -> nat, m: Machine<S>)
    requires Sound(p) && Knows(p, wanted) && |m.got| + m.toRead == wanted(m.state)
    ensures var t := Settle(p, m).m; |t.got| + t.toRead == wanted(t.state)
    decreases p.rank(m.state)
  {
    if m.toRead == 0 {
      var r := p.step(m.state, m.got);
      if r.rc == 0 && r.toRead == 0 {
        SettleKnows(p, wanted, Machine(r.state, r.toRead, []));
      }
    }
  }

  /** A step is taken when exactly the bytes it wants are there. */
  lemma {:induction false} JustEnough<S(!new)>(p: Program<S>, wanted: S -> nat, m: Machine<S>, data: bytes)
    requires Sound(p) && m.toRead > 0 && Knows(p, wanted) && |m.got| + m.toRead == wanted(m.state)
    ensures var t := Trace(p, m, data).m; |t.got| + t.toRead == wanted(t.state) && t.toRead > 0
    decreases |data|
  {
    hide Sound, Knows, Settle;
    if data != [] {
      var n := |data| - 1;
      JustEnough(p, wanted, m, data[..n]);
      SettleKnows(p, wanted, Put(Trace(p, m, data[..n]).m, [data[n]]));
    }
  }

  class Decoder<S(!new)> {
    const program: Program<S>
    const bufsize: nat        // allocator->size ()
    var state: S              // next, and what the derived class keeps
    var toRead: nat
    var got: bytes            // what lies in front of read_pos since the last step

    ghost predicate Valid()
      reads this
    {
      Sound(program) && toRead > 0
    }

    function Abs(): Machine<S>
      reads this
    {
      Machine(state, toRead, got)
    }

    /** The constructor of a derived class schedules its first step. */
    constructor (program: Program<S>, bufsize: nat, state: S, toRead: nat)
      requires Sound(program) && toRead > 0
      ensures Valid() && Abs() == Machine(state, toRead, []) && this.program == program && this.bufsize == bufsize
    {
      this.program := program;
      this.bufsize := bufsize;
      this.state := state;
      this.toRead := toRead;
      got := [];
    }

    /** get_buffer: zero-copy if a large part is expected, and then no more than that part. */
    method GetBuffer() returns (zeroCopy: bool, size: nat)
      requires Valid()
      ensures zeroCopy ==> size == toRead
      ensures !zeroCopy ==> size == bufsize && toRead < bufsize
    {
      if toRead >= bufsize {
        return true, toRead;
      }
      return false, bufsize;
    }

    /** The inner loops of decode: steps are taken until bytes are wanted. */
    method TakeSteps() returns (rc: int)
      requires Sound(program)
      modifies this`state, this`toRead, this`got
      ensures Valid() && Settled(Abs(), rc) == Settle(program, old(Abs()))
    {
      while toRead == 0
        invariant Settle(program, Abs()) == Settle(program, old(Abs()))
        decreases if toRead == 0 then program.rank(state) + 1 else 0
      {
        var r := program.step(state, got);
        state, toRead, got := r.state, r.toRead, [];
        if r.rc != 0 {
          return r.rc;
        }
      }
      return 0;
    }

    /** decode: the data up to the first step that returns something. */
    method Decode(data: bytes, zeroCopy: bool) returns (rc: int, bytesUsed: nat)
      requires Valid() && (zeroCopy ==> |data| <= toRead)
      modifies this`state, this`toRead, this`got
      ensures Valid() && bytesUsed <= |data|
      ensures (rc == 0 || zeroCopy ==> bytesUsed == |data|) && (rc != 0 ==> bytesUsed > 0)
      ensures Traced(Abs(), Results(rc)) == Trace(program, old(Abs()), data[..bytesUsed])
    {
      hide Settle, Sound, Trace;
      bytesUsed := 0;
      TraceNone(program, Abs());
      if zeroCopy {
        got := got + data;
        toRead := toRead - |data|;
        bytesUsed := |data|;
        assert data[..|data|] == data;
        if data != [] {
          Bulk(program, old(Abs()), data);
          rc := TakeSteps();
        } else {
          assert got == old(got);
          rc := TakeSteps();
          SettledAlready(program, old(Abs()));
        }
        return;
      }
      while bytesUsed < |data|
        invariant Valid() && bytesUsed <= |data|
        invariant Traced(Abs(), []) == Trace(program, old(Abs()), data[..bytesUsed])
      {
        var toCopy := Min(toRead, |data| - bytesUsed);
        ghost var before, chunk := Abs(), data[bytesUsed..bytesUsed + toCopy];
        Bulk(program, before, chunk);
        TraceSplit(program, old(Abs()), data[..bytesUsed], chunk);
        assert data[..bytesUsed] + chunk == data[..bytesUsed + toCopy];
        got := got + data[bytesUsed..bytesUsed + toCopy];
        toRead := toRead - toCopy;
        bytesUsed := bytesUsed + toCopy;
        rc := TakeSteps();
        if rc != 0 {
          return;
        }
      }
      return 0, bytesUsed;
    }

    /** A caller that goes on behind bytes_used_ until a chunk is used up. */
    method DecodeAll(data: bytes, zeroCopy: bool) returns (results: seq<int>)
      requires Valid() && (zeroCopy ==> |data| <= toRead)
      modifies this`state, this`toRead, this`got
      ensures Valid() && Traced(Abs(), results) == Trace(program, old(Abs()), data)
    {
      hide Settle, Sound, Trace;
      results := [];
      TraceNone(program, Abs());
      var pos := 0;
      while pos < |data|
        invariant Valid() && pos <= |data| && (zeroCopy && pos < |data| ==> pos == 0 && toRead == old(toRead))
        invariant Traced(Abs(), results) == Trace(program, old(Abs()), data[..pos])
      {
        var rc, used := Decode(data[pos..], zeroCopy);
        TraceSplit(program, old(Abs()), data[..pos], data[pos..][..used]);
        assert data[..pos] + data[pos..][..used] == data[..pos + used];
        results := results + Results(rc);
        pos := pos + used;
      }
      assert data[..pos] == data;
    }

    /** Any division into chunks, any of them read straight to where the step wants it. */
    method DecodeChunks(chunks: seq<bytes>, zeroCopy: seq<bool>) returns (results: seq<int>)
      requires Valid() && |zeroCopy| == |chunks|
      modifies this`state, this`toRead, this`got
      ensures Valid() && Traced(Abs(), results) == Trace(program, old(Abs()), Joined(chunks))
    {
      results := [];
      for i := 0 to |chunks|
        invariant Valid() && Traced(Abs(), results) == Trace(program, old(Abs()), Joined(chunks[..i]))
      {
        assert chunks[..i + 1] == chunks[..i] + [chunks[i]];
        JoinedMore(chunks[..i], chunks[i]);
        TraceSplit(program, old(Abs()), Joined(chunks[..i]), chunks[i]);
        var more := DecodeAll(chunks[i], zeroCopy[i] && |chunks[i]| <= toRead);
        results := results + more;
      }
      assert chunks[..|chunks|] == chunks;
    }
  }
}
