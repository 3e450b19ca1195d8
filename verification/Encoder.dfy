/** encoder_base_t of libzmq (src/encoder.hpp), over any machine of steps: what it hands out for a message, batch
    by batch, is what the steps schedule, whatever the sizes of the batches. */
module Encoder {
  import opened Bytes

  /** What a step schedules: the bytes to be written next, and whether the message ends with them. */
  datatype Sched<S> = Sched(state: S, piece: bytes, newMsg: bool)

  /** The steps of an encoder.  rank bounds how many of them are left for a message. */
  datatype Program<!S> = Program(step: S -> Sched<S>, rank: S -> nat)

  ghost predicate Sound<S(!new)>(p: Program<S>)
  {
    forall s :: var r := p.step(s); !r.newMsg ==> p.rank(r.state) < p.rank(s)
  }

  /** The pieces that the steps schedule from a state on, up to the end of the message. */
  ghost function Pieces<S(!new)>(p: Program<S>, s: S): bytes
    requires Sound(p)
    decreases p.rank(s)
  {
    var r := p.step(s);
    r.piece + (if r.newMsg then [] else Pieces(p, r.state))
  }

  /** What is still to come of a message: the rest of a piece, and the pieces after it. */
  ghost function Rest<S(!new)>(p: Program<S>, s: S, piece: bytes, newMsg: bool): bytes
    requires Sound(p)
  {
    piece + (if newMsg then [] else Pieces(p, s))
  }

  lemma StepRest<S(!new)>(p: Program<S>, s: S)
    requires Sound(p)
    ensures var r := p.step(s);
            Rest(p, s, [], false) == Rest(p, r.state, r.piece, r.newMsg) && (!r.newMsg ==> p.rank(r.state) < p.rank(s))
  {
  }

  lemma RestSplit<S(!new)>(p: Program<S>, s: S, piece: bytes, newMsg: bool, n: nat)
    requires Sound(p) && n <= |piece|
    ensures Rest(p, s, piece, newMsg) == piece[..n] + Rest(p, s, piece[n..], newMsg)
  {
    hide Sound, Pieces;
    assert piece == piece[..n] + piece[n..];
  }

  class Encoder<S(!new)> {
    const program: Program<S>
    const bufsize: nat
    var state: S             // next, and what the derived class keeps
    var toWrite: bytes       // the bytes at write_pos, to_write of them
    var newMsgFlag: bool
    var inProgress: bool

    ghost predicate Valid()
      reads this
    {
      Sound(program)
    }

    /** What is still to be handed out. */
    ghost function Owed(): bytes
      requires Valid()
      reads this
    {
      if inProgress then Rest(program, state, toWrite, newMsgFlag) else []
    }

    constructor (program: Program<S>, bufsize: nat, state: S)
      requires Sound(program)
      ensures Valid() && !inProgress && toWrite == [] && this.program == program && this.state == state &&
          this.bufsize == bufsize
    {
      this.program := program;
      this.bufsize := bufsize;
      this.state := state;
      toWrite, newMsgFlag, inProgress := [], false, false;
    }

    /** The action of the machine: next_step. */
    method TakeStep()
      modifies this`state, this`toWrite, this`newMsgFlag
      ensures var r := program.step(old(state));
              state == r.state && toWrite == r.piece && newMsgFlag == r.newMsg
    {
      var r := program.step(state);
      state, toWrite, newMsgFlag := r.state, r.piece, r.newMsg;
    }

    /** load_msg */
    method LoadMsg()
      requires Valid() && !inProgress
      modifies this
      ensures Valid() && inProgress && Owed() == Pieces(program, old(state))
    {
      inProgress := true;
      TakeStep();
    }

    /** The machine runs once a piece is used up, and the message goes on. */
    method Refill()
      requires Valid() && inProgress && toWrite == [] && !newMsgFlag
      modifies this`state, this`toWrite, this`newMsgFlag
      ensures Valid() && Owed() == old(Owed())
      ensures !newMsgFlag ==> program.rank(state) < old(program.rank(state))
    {
      StepRest(program, state);
      TakeStep();
    }

    /** The next n bytes of the piece. */
    method Take(n: nat) returns (b: bytes)
      requires Valid() && inProgress && n <= |toWrite|
      modifies this`toWrite
      ensures Valid() && b == old(toWrite)[..n] && toWrite == old(toWrite)[n..] && old(Owed()) == b + Owed()
    {
      RestSplit(program, state, toWrite, newMsgFlag, n);
      b := toWrite[..n];
      toWrite := toWrite[n..];
    }

    /** The end of a message: nothing is owed, and it is closed. */
    method Release()
      requires Valid() && inProgress && toWrite == [] && newMsgFlag
      modifies this`inProgress
      ensures Valid() && !inProgress && old(Owed()) == Owed() == []
    {
      RestNone(program, state);
      inProgress := false;
    }

    /** encode, into a buffer of the caller's, or (own) into the encoder's, which may be bypassed.  The message is
        released once nothing of it is owed, and only a message that ends leaves a batch short. */
    method Encode(own: bool, size: nat) returns (data: bytes)
      requires Valid()
      modifies this
      ensures Valid() && old(Owed()) == data + Owed()
      ensures !inProgress ==> old(Owed()) == data
      ensures |data| < (if own then bufsize else size) ==> !inProgress
      ensures !old(inProgress) ==> data == [] && !inProgress
      ensures !own ==> |data| <= size
    {
      hide Sound, Pieces, Rest, Owed;
      NothingOwed();
      var buffersize := if own then bufsize else size;
      data := [];
      if !inProgress {
        return;
      }
      while |data| < buffersize
        invariant Valid() && inProgress && |data| <= buffersize && old(Owed()) == data + Owed()
        decreases if newMsgFlag then 0 else program.rank(state) + 1, buffersize - |data|
      {
        if toWrite == [] {
          if newMsgFlag {
            Release();
            break;
          }
          Refill();
        }
        if data == [] && own && |toWrite| >= buffersize {
          data := Take(|toWrite|);
          return;
        }
        var toCopy := Min(|toWrite|, buffersize - |data|);
        var b := Take(toCopy);
        data := data + b;
      }
    }

    lemma NothingOwed()
      requires Valid()
      ensures !inProgress ==> Owed() == []
    {
    }

    /** Batches of any positive sizes until the message is released: together they are the pieces of the message. */
    method Drain(own: seq<bool>, sizes: seq<nat>) returns (batches: seq<bytes>)
      requires Valid() && |own| == |sizes| && bufsize > 0 && forall i :: 0 <= i < |sizes| ==> sizes[i] > 0
      modifies this
      ensures Valid() && old(Owed()) == Joined(batches) + Owed()
      ensures !inProgress ==> Joined(batches) == old(Owed())
      ensures |sizes| > |old(Owed())| ==> !inProgress
    {
      hide Sound, Pieces, Rest;
      batches := [];
      for i := 0 to |sizes|
        invariant Valid() && old(Owed()) == Joined(batches) + Owed()
        invariant inProgress ==> |Joined(batches)| >= i
      {
        var data := Encode(own[i], sizes[i]);
        JoinedMore(batches, data);
        batches := batches + [data];
      }
    }
  }

  lemma RestNone<S(!new)>(p: Program<S>, s: S)
    requires Sound(p)
    ensures Rest(p, s, [], true) == []
  {
  }
}
