/**
 * maxLatencyWriter: a goroutine that copies a response and one that flushes it now and then, sharing a
 * mutex and an unbuffered channel. Every interleaving of their steps is a run of this machine.
 */
module LatencyWriter {
  import opened Wrappers

  type Bytes = seq<int>

  /** copyResponse: writes chunks one by one until the source ends or a write falls short, then calls stop. */
  datatype Writer =
    | Copying                  // between writes
    | Locked(p: Bytes)         // Write holds the mutex
    | InWrite(p: Bytes)        // dst.Write is running
    | Wrote(p: Bytes, n: nat)  // dst.Write took n bytes and returned, the mutex is still held
    | Stopping                 // blocked on done <- true
    | Stopped

  /** flushLoop. */
  datatype Loop =
    | Selecting                // in the select
    | Ticked                   // took a tick, waits for the mutex
    | LoopLocked
    | InFlush                  // dst.Flush is running
    | Flushed
    | Exited

  datatype Owner = Free | ByWriter | ByLoop

  datatype State = State(
    writer: Writer,
    loop: Loop,
    lk: Owner,
    broken: bool,      // a write erred or fell short: io.Copy writes no more
    sent: Bytes,       // what returned Write calls passed on, in order
    out: Bytes,        // what the destination has received
    flushed: nat)      // how much of it has been flushed

  const START := State(Copying, Selecting, Free, false, [], [], 0)

  datatype Action =
    | Lock(p: Bytes) | BeginWrite | EndWrite(n: nat, err: bool) | Unlock | Finish     // the writer
    | Tick | LoopLock | BeginFlush | EndFlush | LoopUnlock                            // the loop
    | Rendezvous                                                                      // done <- true meets <-done

  predicate Enabled(s: State, a: Action)
  {
    match a
    case Lock(_) => s.writer.Copying? && !s.broken && s.lk.Free?
    case BeginWrite => s.writer.Locked?
    case EndWrite(n, _) => s.writer.InWrite? && n <= |s.writer.p|
    case Unlock => s.writer.Wrote?
    case Finish => s.writer.Copying?
    case Tick => s.loop.Selecting?
    case LoopLock => s.loop.Ticked? && s.lk.Free?
    case BeginFlush => s.loop.LoopLocked?
    case EndFlush => s.loop.InFlush?
    case LoopUnlock => s.loop.Flushed?
    case Rendezvous => s.writer.Stopping? && s.loop.Selecting?
  }

  /** What the destination took of the write that has just returned. */
  function Taken(s: State): Bytes
  {
    if s.writer.Wrote? && s.writer.n <= |s.writer.p| then s.writer.p[..s.writer.n] else []
  }

  function Apply(s: State, a: Action): State
    requires Enabled(s, a)
  {
    match a
    case Lock(p) => s.(writer := Locked(p), lk := ByWriter)
    case BeginWrite => s.(writer := InWrite(s.writer.p))
    case EndWrite(n, err) =>
      var p := s.writer.p;
      s.(writer := Wrote(p, n), out := s.out + p[..n], broken := err || n < |p|)
    case Unlock => s.(writer := Copying, lk := Free, sent := s.sent + Taken(s))
    case Finish => s.(writer := Stopping)
    case Tick => s.(loop := Ticked)
    case LoopLock => s.(loop := LoopLocked, lk := ByLoop)
    case BeginFlush => s.(loop := InFlush)
    case EndFlush => s.(loop := Flushed, flushed := |s.out|)
    case LoopUnlock => s.(loop := Selecting, lk := Free)
    case Rendezvous => s.(writer := Stopped, loop := Exited)
  }

  function Exec(s: State, acts: seq<Action>): Option<State>
  {
    if acts == [] then Some(s)
    else
      var n := |acts| - 1;
      match Exec(s, acts[..n])
      case None => None
      case Some(t) => if Enabled(t, acts[n]) then Some(Apply(t, acts[n])) else None
  }

  // ---------- safety ----------

  ghost predicate Inv(s: State)
  {
    && (s.lk.ByWriter? <==> s.writer.Locked? || s.writer.InWrite? || s.writer.Wrote?)
    && (s.lk.ByLoop? <==> s.loop.LoopLocked? || s.loop.InFlush? || s.loop.Flushed?)
    && (s.writer.Stopped? <==> s.loop.Exited?)
    && s.out == s.sent + Taken(s)
    && (s.writer.Wrote? ==> s.writer.n <= |s.writer.p| && (s.broken || s.writer.n == |s.writer.p|))
    && (s.broken ==> !s.writer.Locked? && !s.writer.InWrite?)
    && s.flushed <= |s.out|
    && (s.loop.Flushed? ==> s.flushed == |s.out| == |s.sent|)
  }

  lemma StepKeepsInv(s: State, a: Action)
    requires Inv(s) && Enabled(s, a)
    ensures Inv(Apply(s, a))
  {
  }

  lemma {:induction false} ReachableInv(acts: seq<Action>)
    requires Exec(START, acts).Some?
    ensures Inv(Exec(START, acts).value)
  {
    if acts != [] {
      var n := |acts| - 1;
      ReachableInv(acts[..n]);
      StepKeepsInv(Exec(START, acts[..n]).value, acts[n]);
    }
  }

  /** What Write has been asked to write, in order. */
  function Asked(acts: seq<Action>): Bytes
  {
    if acts == [] then []
    else
      var n := |acts| - 1;
      Asked(acts[..n]) + if acts[n].Lock? then acts[n].p else []
  }

  /** The part of it that belongs to a call not yet at its end. */
  function Pending(s: State): Bytes
  {
    if s.writer.Locked? || s.writer.InWrite? || s.writer.Wrote? then s.writer.p else []
  }

  /** As long as no write has fallen short, what was asked for has been passed on or is pending. */
  ghost predicate Delivered(s: State, asked: Bytes)
  {
    if s.broken then s.out <= asked else s.sent + Pending(s) == asked
  }

  lemma DeliveredStep(s: State, a: Action, asked: Bytes)
    requires Inv(s) && Enabled(s, a) && Delivered(s, asked)
    ensures Delivered(Apply(s, a), asked + if a.Lock? then a.p else [])
  {
    assert asked + [] == asked && s.sent + [] == s.sent;
    if a.EndWrite? {
      var p := s.writer.p;
      assert s.sent + p[..a.n] + p[a.n..] == s.sent + p;
      assert s.out + [] == s.out;
    }
  }

  lemma {:induction false} AlwaysDelivered(acts: seq<Action>)
    requires Exec(START, acts).Some?
    ensures Delivered(Exec(START, acts).value, Asked(acts))
  {
    if acts != [] {
      var n := |acts| - 1;
      AlwaysDelivered(acts[..n]);
      ReachableInv(acts[..n]);
      DeliveredStep(Exec(START, acts[..n]).value, acts[n], Asked(acts[..n]));
    }
  }

  /**
   * In every interleaving a write and a flush never overlap, and the destination has received what Write
   * was asked to write, in that order: a first part of it always, and between writes all of it unless one
   * fell short.
   */
  lemma NoOverlapInOrder(acts: seq<Action>)
    requires Exec(START, acts).Some?
    ensures var s := Exec(START, acts).value;
      && !(s.writer.InWrite? && s.loop.InFlush?)
      && s.out <= Asked(acts)
      && (!s.broken && Pending(s) == [] ==> s.out == Asked(acts))
  {
    ReachableInv(acts);
    AlwaysDelivered(acts);
    var s := Exec(START, acts).value;
    assert s.sent + [] == s.sent;
  }

  /** When stop has returned the loop is gone and nothing more can happen: no flush starts after stop. */
  lemma {:induction false} NothingAfterStop(acts: seq<Action>, i: nat)
    requires Exec(START, acts).Some? && i < |acts| && acts[i].Rendezvous?
    ensures i == |acts| - 1
    decreases |acts|
  {
    var n := |acts| - 1;
    if i < n {
      NothingAfterStop(acts[..n], i);
      ReachableInv(acts[..n]);
    }
  }

  // ---------- stop does not hang ----------

  /** Steps the loop still needs to be back in its select. */
  function ToSelect(l: Loop): nat
  {
    match l
    case Selecting => 0
    case Ticked => 4
    case LoopLocked => 3
    case InFlush => 2
    case Flushed => 1
    case Exited => 0
  }

  /** A loop that is away from its select, and not kept from the mutex by a write, has a step that brings it nearer. */
  lemma LoopProgress(s: State) returns (a: Action)
    requires Inv(s) && !s.lk.ByWriter? && !s.loop.Selecting? && !s.loop.Exited?
    ensures Enabled(s, a) && Apply(s, a).writer == s.writer
    ensures ToSelect(Apply(s, a).loop) < ToSelect(s.loop)
  {
    match s.loop
    case Ticked => a := LoopLock;
    case LoopLocked => a := BeginFlush;
    case InFlush => a := EndFlush;
    case Flushed => a := LoopUnlock;
  }

  /** From any state in which stop is blocked, at most five steps let it return. */
  lemma {:induction false} StopCanReturn(s: State) returns (acts: seq<Action>)
    requires Inv(s) && s.writer.Stopping?
    ensures |acts| <= ToSelect(s.loop) + 1
    ensures Exec(s, acts).Some? && Exec(s, acts).value.writer.Stopped? && Exec(s, acts).value.loop.Exited?
    decreases ToSelect(s.loop)
  {
    if s.loop.Selecting? {
      acts := [Rendezvous];
      assert acts[..0] == [];
    } else {
      var a := LoopProgress(s);
      StepKeepsInv(s, a);
      var rest := StopCanReturn(Apply(s, a));
      acts := [a] + rest;
      ExecCons(s, a, rest);
    }
  }

  /** From any state between two writes, at most four steps of the loop let the next write take the mutex. */
  lemma {:induction false} WriteCanStart(s: State, p: Bytes) returns (acts: seq<Action>)
    requires Inv(s) && s.writer.Copying? && !s.broken
    ensures |acts| <= ToSelect(s.loop)
    ensures Exec(s, acts).Some? && Enabled(Exec(s, acts).value, Lock(p))
    decreases ToSelect(s.loop)
  {
    if s.lk.Free? {
      acts := [];
    } else {
      var a := LoopProgress(s);
      StepKeepsInv(s, a);
      var rest := WriteCanStart(Apply(s, a), p);
      acts := [a] + rest;
      ExecCons(s, a, rest);
    }
  }

  lemma {:induction false} ExecCons(s: State, a: Action, rest: seq<Action>)
    requires Enabled(s, a)
    ensures Exec(s, [a] + rest) == Exec(Apply(s, a), rest)
  {
    var acts := [a] + rest;
    var n := |rest|;
    if rest == [] {
      assert acts[..0] == [];
    } else {
      assert acts[..n] == [a] + rest[..n - 1];
      ExecCons(s, a, rest[..n - 1]);
    }
  }

  /** No reachable state has stop blocked with the loop gone; stop can always return. */
  lemma StopNeverHangs(acts: seq<Action>) returns (more: seq<Action>)
    requires Exec(START, acts).Some? && Exec(START, acts).value.writer.Stopping?
    ensures !Exec(START, acts).value.loop.Exited? && |more| <= 5
    ensures var r := Exec(Exec(START, acts).value, more); r.Some? && r.value.writer.Stopped?
  {
    ReachableInv(acts);
    more := StopCanReturn(Exec(START, acts).value);
  }

  function Ticks(acts: seq<Action>): nat
  {
    if acts == [] then 0 else Ticks(acts[..|acts| - 1]) + if acts[|acts| - 1].Tick? then 1 else 0
  }

  /**
   * Nothing but ticks keeps stop waiting. While it waits, every fifth step is a tick that the loop's select
   * took although it could have taken the stop; so a select that ever prefers the stop lets it return.
   */
  lemma {:induction false} OnlyTicksDelayStop(s: State, acts: seq<Action>)
    requires Inv(s) && s.writer.Stopping? && Exec(s, acts).Some? && Rendezvous !in acts
    ensures Inv(Exec(s, acts).value) && Exec(s, acts).value.writer.Stopping?
    ensures |acts| + ToSelect(Exec(s, acts).value.loop) == ToSelect(s.loop) + 5 * Ticks(acts)
    ensures forall i :: 0 <= i < |acts| && acts[i].Tick? ==>
      Exec(s, acts[..i]).Some? && Enabled(Exec(s, acts[..i]).value, Rendezvous)
  {
    if acts != [] {
      var n := |acts| - 1;
      OnlyTicksDelayStop(s, acts[..n]);
      StepKeepsInv(Exec(s, acts[..n]).value, acts[n]);
      forall i | 0 <= i < |acts| && acts[i].Tick?
        ensures Exec(s, acts[..i]).Some? && Enabled(Exec(s, acts[..i]).value, Rendezvous)
      {
        if i < n { assert acts[..n][..i] == acts[..i]; }
      }
    }
  }
}
