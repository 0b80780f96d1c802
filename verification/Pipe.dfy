// pipe.c: a ring of PIPESIZE bytes with 32-bit counters that wrap.
//
// Each method is what one caller does between taking the pipe's lock and
// giving it up, to return or to sleep; callers may be interleaved in any way.

module Pipe {
  import opened Common

  const PIPESIZE: nat := 512

  /** nwrite - nread in unsigned arithmetic. */
  function Held(nread: nat, nwrite: nat): (n: nat)
    requires nread < WORD && nwrite < WORD
    ensures n < WORD
  {
    (nwrite - nread) % WORD
  }

  /** The bytes in the ring, oldest first. */
  function Contents(data: seq<Byte>, nread: nat, n: nat): (r: seq<Byte>)
    requires |data| == PIPESIZE && n <= PIPESIZE
    ensures |r| == n && forall i | 0 <= i < n :: r[i] == data[(nread + i) % PIPESIZE]
  {
    if n == 0 then [] else Contents(data, nread, n - 1) + [data[(nread + n - 1) % PIPESIZE]]
  }

  /** The full test of pipewrite, which adds with wrap-around. */
  lemma FullTest(nread: nat, nwrite: nat)
    requires nread < WORD && nwrite < WORD
    ensures nwrite == (nread + PIPESIZE) % WORD <==> Held(nread, nwrite) == PIPESIZE
    ensures nread == nwrite <==> Held(nread, nwrite) == 0
  {
  }

  lemma Slots(nread: nat, i: nat, j: nat)
    requires i < j < PIPESIZE + i
    ensures (nread + i) % PIPESIZE != (nread + j) % PIPESIZE
  {
    var d := j - i;
    assert (nread + j) % PIPESIZE == ((nread + i) % PIPESIZE + d) % PIPESIZE;
  }

  lemma HeldMore(nread: nat, nwrite: nat)
    requires nread < WORD && nwrite < WORD && Held(nread, nwrite) < PIPESIZE
    ensures Held(nread, (nwrite + 1) % WORD) == Held(nread, nwrite) + 1
    ensures nwrite % PIPESIZE == (nread + Held(nread, nwrite)) % PIPESIZE
  {
    var n := Held(nread, nwrite);
    assert nwrite == nread + n || nwrite + WORD == nread + n;
  }

  /** A byte stored at nwrite % PIPESIZE goes behind the bytes held, at any counter value. */
  lemma Stored(data: seq<Byte>, nread: nat, nwrite: nat, c: Byte)
    requires |data| == PIPESIZE && nread < WORD && nwrite < WORD && Held(nread, nwrite) < PIPESIZE
    ensures var n := Held(nread, nwrite);
      && Held(nread, (nwrite + 1) % WORD) == n + 1
      && Contents(data[nwrite % PIPESIZE := c], nread, n + 1) == Contents(data, nread, n) + [c]
  {
    hide Contents, Held;
    var n := Held(nread, nwrite);
    HeldMore(nread, nwrite);
    var old', new' := Contents(data, nread, n), Contents(data[nwrite % PIPESIZE := c], nread, n + 1);
    forall i | 0 <= i < n ensures new'[i] == old'[i] {
      Slots(nread, i, n);
    }
    assert new' == old' + [c];
  }

  /** A byte fetched at nread % PIPESIZE is the oldest one held. */
  lemma Fetched(data: seq<Byte>, nread: nat, nwrite: nat)
    requires |data| == PIPESIZE && nread < WORD && nwrite < WORD && 0 < Held(nread, nwrite) <= PIPESIZE
    ensures var n := Held(nread, nwrite);
      && Held((nread + 1) % WORD, nwrite) == n - 1
      && Contents(data, nread, n) == [data[nread % PIPESIZE]] + Contents(data, (nread + 1) % WORD, n - 1)
  {
    hide Contents, Held;
    HeldNext(nread, nwrite);
    var n := Held(nread, nwrite);
    var all, rest := Contents(data, nread, n), Contents(data, (nread + 1) % WORD, n - 1);
    forall i | 0 < i < n ensures all[i] == rest[i - 1] {
      Next(nread, i - 1);
    }
    assert all[0] == data[nread % PIPESIZE];
    assert all == [data[nread % PIPESIZE]] + rest;
  }

  lemma HeldNext(nread: nat, nwrite: nat)
    requires nread < WORD && nwrite < WORD && 0 < Held(nread, nwrite) <= PIPESIZE
    ensures Held((nread + 1) % WORD, nwrite) == Held(nread, nwrite) - 1
  {
  }

  lemma Next(nread: nat, i: nat)
    requires nread < WORD && i < PIPESIZE
    ensures ((nread + 1) % WORD + i) % PIPESIZE == (nread + i + 1) % PIPESIZE
  {
  }

  datatype Outcome = Returned | Asleep | Failed

  /** The write that leaves a reader asleep beside bytes, told before the call:
      a reader waits on the empty pipe, the writer is killed or has no read end
      to write to, and it brings more bytes than the pipe holds. */
  predicate StrandsReader(readersAsleep: set<nat>, readopen: bool, killed: bool, bytes: nat) {
    readersAsleep != {} && (killed || !readopen) && bytes > PIPESIZE
  }

  class Pipe {
    var data: seq<Byte>
    var nread: nat
    var nwrite: nat
    var readopen: bool
    var writeopen: bool
    var writersAsleep: set<nat>          // callers asleep on nwrite
    var readersAsleep: set<nat>          // callers asleep on nread
    ghost var sent: seq<Byte>            // every byte ever put in
    ghost var received: seq<Byte>        // every byte ever taken out

    /** What was received and what is held add up to what was sent. */
    ghost predicate Ring()
      reads this
    {
      && |data| == PIPESIZE && nread < WORD && nwrite < WORD && Held(nread, nwrite) <= PIPESIZE
      && sent == received + Contents(data, nread, Held(nread, nwrite))
    }

    /** A writer asleep on nwrite means a full pipe with its read end open. */
    ghost predicate Valid()
      reads this
    {
      && Ring()
      && (writersAsleep != {} ==> readopen && Held(nread, nwrite) == PIPESIZE)
    }

    /** Nobody waits for bytes that are there, or that can no longer come. */
    ghost predicate ReadersOk()
      reads this
    {
      readersAsleep != {} ==> nread == nwrite && writeopen
    }

    constructor ()
      ensures Valid() && ReadersOk() && sent == [] && received == [] && readopen && writeopen
    {
      data := seq(PIPESIZE, _ => 0);
      nread, nwrite, readopen, writeopen := 0, 0, true, true;
      writersAsleep, readersAsleep := {}, {};
      sent, received := [], [];
    }

    /** p->data[p->nwrite++ % PIPESIZE] = c, when there is room. */
    method Put(c: Byte)
      requires Ring() && Held(nread, nwrite) != PIPESIZE
      modifies `data, `nwrite, `sent
      ensures Ring() && sent == old(sent) + [c] && nread != nwrite
      ensures Held(nread, nwrite) == Held(nread, old(nwrite)) + 1
    {
      hide Contents, Held;
      Stored(data, nread, nwrite, c);
      assert received + (Contents(data, nread, Held(nread, nwrite)) + [c]) == sent + [c];
      data := data[nwrite % PIPESIZE := c];
      nwrite := (nwrite + 1) % WORD;
      sent := sent + [c];
      FullTest(nread, nwrite);
    }

    /** pipewrite by caller from byte i on, until it returns, fails or sleeps;
        the caller is not asleep.  k is the number of bytes now written. */
    method Write(caller: nat, buf: seq<Byte>, i: nat, killed: bool) returns (r: Outcome, k: nat)
      requires Valid() && i <= |buf|
      modifies this
      ensures Valid() && received == old(received) && i <= k <= |buf| && sent == old(sent) + buf[i..k]
      ensures readopen == old(readopen) && writeopen == old(writeopen)
      ensures r.Returned? ==> k == |buf|
      ensures !r.Returned? ==> k < |buf| && Held(nread, nwrite) == PIPESIZE
      ensures r.Failed? <==> k < |buf| && (!readopen || killed)
      ensures writersAsleep == old(writersAsleep) + if r.Asleep? then {caller} else {}
      ensures readersAsleep == if r.Failed? then old(readersAsleep) else {}
      ensures old(ReadersOk()) ==>
        (ReadersOk() <==> !StrandsReader(old(readersAsleep), old(readopen), killed, |buf| - i))
    {
      hide Contents, Held;
      k := i;
      FullTest(nread, nwrite);
      assert buf[i..k] == [];
      while k < |buf|
        invariant Ring() && i <= k <= |buf| && sent == old(sent) + buf[i..k]
        invariant k > i ==> writersAsleep == {}
        invariant received == old(received) && readopen == old(readopen) && writeopen == old(writeopen)
        invariant writersAsleep == old(writersAsleep) && readersAsleep == old(readersAsleep)
        invariant k == i ==> nread == old(nread) && nwrite == old(nwrite)
        invariant k > i ==> nread != nwrite
        invariant Held(nread, nwrite) == Held(old(nread), old(nwrite)) + k - i
      {
        FullTest(nread, nwrite);
        if nwrite == (nread + PIPESIZE) % WORD {
          if !readopen || killed {
            return Failed, k;
          }
          readersAsleep := {};                       // wakeup(&p->nread)
          writersAsleep := writersAsleep + {caller}; // sleep(&p->nwrite)
          return Asleep, k;
        }
        assert k == i ==> Valid();
        Put(buf[k]);
        assert buf[i..k + 1] == buf[i..k] + [buf[k]];
        k := k + 1;
      }
      readersAsleep := {};
      r := Returned;
    }

    /** piperead by caller, until it returns, fails or sleeps. */
    method Read(caller: nat, n: nat, killed: bool) returns (r: Outcome, got: seq<Byte>)
      requires Valid()
      modifies this
      ensures Valid() && sent == old(sent) && received == old(received) + got && |got| <= n
      ensures readopen == old(readopen) && writeopen == old(writeopen)
      ensures r.Returned? ==> |got| == n || nread == nwrite
      ensures r.Returned? <==> old(nread) != old(nwrite) || !writeopen
      ensures r.Failed? <==> !r.Returned? && killed
      ensures !r.Returned? ==> got == []
      ensures writersAsleep == if r.Returned? then {} else old(writersAsleep)
      ensures readersAsleep == old(readersAsleep) + if r.Asleep? then {caller} else {}
      ensures old(ReadersOk()) ==> ReadersOk()
    {
      hide Contents, Held;
      FullTest(nread, nwrite);
      got := [];
      if nread == nwrite && writeopen {
        if killed {
          return Failed, got;
        }
        readersAsleep := readersAsleep + {caller};
        return Asleep, got;
      }
      while |got| < n && nread != nwrite
        invariant Ring() && |got| <= n && sent == old(sent) && received == old(received) + got
        invariant readopen == old(readopen) && writeopen == old(writeopen)
        invariant writersAsleep == old(writersAsleep) && readersAsleep == old(readersAsleep)
        decreases n - |got|
      {
        FullTest(nread, nwrite);
        Fetched(data, nread, nwrite);
        var c := data[nread % PIPESIZE];
        nread := (nread + 1) % WORD;
        got := got + [c];
        received := received + [c];
        assert sent == received + Contents(data, nread, Held(nread, nwrite));
      }
      writersAsleep := {};                           // wakeup(&p->nwrite)
      r := Returned;
    }

    /** pipeclose. */
    method Close(writable: bool)
      requires Valid()
      modifies this
      ensures Valid() && sent == old(sent) && received == old(received)
      ensures writeopen == (old(writeopen) && !writable) && readopen == (old(readopen) && writable)
      ensures readersAsleep == (if writable then {} else old(readersAsleep))
      ensures writersAsleep == (if writable then old(writersAsleep) else {})
      ensures old(ReadersOk()) ==> ReadersOk()
    {
      if writable {
        writeopen := false;
        readersAsleep := {};
      } else {
        readopen := false;
        writersAsleep := {};
      }
    }
  }

  /** The failing case is reachable: a killed writer fills the pipe and leaves without a wakeup. */
  method StuckReader() returns (p: Pipe)
    ensures p.Valid() && p.readersAsleep != {} && p.nread != p.nwrite
  {
    p := new Pipe();
    var r, got := p.Read(0, 1, false);
    var buf: seq<Byte> := seq(PIPESIZE + 1, _ => 0);
    var w, k := p.Write(1, buf, 0, true);
    FullTest(p.nread, p.nwrite);
  }
}
