/**
 The second stage in front of a remote store: a pump task moves the items of a broadcast channel
 into a second bounded channel, which the HTTP body reads frame by frame.
 */
module StreamBody {
  import opened Types
  import Broadcast

  type Item = Broadcast.Item

  const CAPACITY: nat := 256

  /** An error of the stream reaches the HTTP client as an I/O error that carries it. */
  datatype Frame = Data(bytes: Bytes) | StreamError(error: S3Error)

  datatype Pump = Reading | Holding(frame: Frame) | Stopped

  /**
   sent: everything the broadcaster has put into the first channel so far;
   frames: everything the HTTP client has read; ended: it has been told the end of the body.
   */
  datatype Pipe = Pipe(
    sent: seq<Item>,
    first: seq<Item>,
    closed: bool,
    pump: Pump,
    second: seq<Frame>,
    frames: seq<Frame>,
    ended: bool,
    readerGone: bool)

  const EMPTY := Pipe([], [], false, Reading, [], [], false, false)

  datatype Action = Offer(item: Item) | Close | PumpRead | PumpWrite | Poll | DropReader

  function Wrap(item: Item): Frame {
    match item
    case Chunk(d) => Data(d)
    case Fault(e) => StreamError(e)
  }

  function WrapAll(items: seq<Item>): (r: seq<Frame>)
    ensures |r| == |items| && forall i :: 0 <= i < |r| ==> r[i] == Wrap(items[i])
  {
    seq(|items|, i requires 0 <= i < |items| => Wrap(items[i]))
  }

  /** Poll is enabled when poll_frame is ready, not pending. */
  predicate Enabled(p: Pipe, a: Action) {
    match a
    case Offer(_) => !p.closed && !p.pump.Stopped? && |p.first| < CAPACITY
    case Close => !p.closed
    case PumpRead => p.pump.Reading? && (p.first != [] || p.closed)
    case PumpWrite => p.pump.Holding? && (p.readerGone || |p.second| < CAPACITY)
    case Poll => !p.readerGone && (p.second != [] || p.pump.Stopped?)
    case DropReader => !p.readerGone
  }

  function Next(p: Pipe, a: Action): Pipe
    requires Enabled(p, a)
  {
    match a
    case Offer(item) => p.(sent := p.sent + [item], first := p.first + [item])
    case Close => p.(closed := true)
    case PumpRead =>
      if p.first != [] then p.(pump := Holding(Wrap(p.first[0])), first := p.first[1..])
      else p.(pump := Stopped)
    case PumpWrite =>
      if p.readerGone then p.(pump := Stopped, first := [])
      else p.(pump := Reading, second := p.second + [p.pump.frame])
    case Poll =>
      if p.second != [] then p.(frames := p.frames + [p.second[0]], second := p.second[1..])
      else p.(ended := true)
    case DropReader => p.(readerGone := true, second := [])
  }

  function InHand(p: Pipe): seq<Frame> {
    if p.pump.Holding? then [p.pump.frame] else []
  }

  function InFlight(p: Pipe): nat {
    |p.first| + |InHand(p)| + |p.second|
  }

  ghost predicate Fifo(p: Pipe) {
    && |p.first| <= CAPACITY && |p.second| <= CAPACITY
    && p.frames <= WrapAll(p.sent)
    && (!p.readerGone ==> p.frames + p.second + InHand(p) + WrapAll(p.first) == WrapAll(p.sent))
    && (p.readerGone ==> p.second == [])
    && (p.pump.Stopped? && !p.readerGone ==> p.closed && p.first == [])
    && (p.ended ==> p.closed && p.frames == WrapAll(p.sent))
  }

  lemma OfferFifo(p: Pipe, item: Item)
    requires Fifo(p) && Enabled(p, Offer(item))
    ensures Fifo(Next(p, Offer(item)))
  {
    var p' := Next(p, Offer(item));
    assert WrapAll(p'.sent) == WrapAll(p.sent) + [Wrap(item)];
    assert WrapAll(p'.first) == WrapAll(p.first) + [Wrap(item)];
    var ahead := p.frames + p.second + InHand(p);
    assert ahead + (WrapAll(p.first) + [Wrap(item)]) == ahead + WrapAll(p.first) + [Wrap(item)];
  }

  lemma ReadFifo(p: Pipe)
    requires Fifo(p) && Enabled(p, PumpRead)
    ensures Fifo(Next(p, PumpRead))
  {
    if p.first != [] {
      var f, rest, ahead := Wrap(p.first[0]), WrapAll(p.first[1..]), p.frames + p.second;
      assert WrapAll(p.first) == [f] + rest;
      MoveOne(ahead, f, rest);
      assert InHand(p) == [] && ahead + [] == ahead;
      assert InHand(Next(p, PumpRead)) == [f];
    }
  }

  lemma MoveOne(a: seq<Frame>, f: Frame, b: seq<Frame>)
    ensures a + ([f] + b) == a + [f] + b
  {
  }

  lemma WriteFifo(p: Pipe)
    requires Fifo(p) && Enabled(p, PumpWrite)
    ensures Fifo(Next(p, PumpWrite))
  {
    var f := p.pump.frame;
    assert p.frames + (p.second + [f]) + [] == p.frames + p.second + [f];
  }

  lemma PollFifo(p: Pipe)
    requires Fifo(p) && Enabled(p, Poll)
    ensures Fifo(Next(p, Poll))
  {
    if p.second != [] {
      var f, rest, behind := p.second[0], p.second[1..], InHand(p) + WrapAll(p.first);
      assert p.second == [f] + rest;
      assert p.frames + [f] + rest == p.frames + p.second;
      assert WrapAll(p.sent) == p.frames + [f] + (rest + behind);
    } else {
      assert p.frames + [] + [] + WrapAll([]) == p.frames;
    }
  }

  lemma NextFifo(p: Pipe, a: Action)
    requires Fifo(p) && Enabled(p, a)
    ensures Fifo(Next(p, a))
  {
    match a
    case Offer(item) => OfferFifo(p, item);
    case PumpRead => ReadFifo(p);
    case PumpWrite => WriteFifo(p);
    case Poll => PollFifo(p);
    case Close =>
    case DropReader =>
  }

  ghost predicate Runs(p: Pipe, trace: seq<Action>)
    decreases |trace|
  {
    trace == [] || (Enabled(p, trace[0]) && Runs(Next(p, trace[0]), trace[1..]))
  }

  ghost function After(p: Pipe, trace: seq<Action>): Pipe
    requires Runs(p, trace)
    decreases |trace|
  {
    if trace == [] then p else After(Next(p, trace[0]), trace[1..])
  }

  lemma {:induction false} RunsFifo(p: Pipe, trace: seq<Action>)
    requires Fifo(p) && Runs(p, trace)
    ensures Fifo(After(p, trace))
    decreases |trace|
  {
    if trace != [] {
      NextFifo(p, trace[0]);
      RunsFifo(Next(p, trace[0]), trace[1..]);
    }
  }

  /**
   The two stages together are one FIFO: in every reachable state what was read, then the second
   channel, the pump's hand and the first channel are exactly what was sent, in order, at most 513
   items are on their way, and the end of the body is only told after everything sent was read. A
   frame holds the very bytes of its chunk, or the very error of its fault.
   */
  lemma TwoStageFifo(trace: seq<Action>)
    requires Runs(EMPTY, trace)
    ensures var p := After(EMPTY, trace);
            && InFlight(p) == |p.first| + (if p.pump.Holding? then 1 else 0) + |p.second| <= 513
            && p.frames <= WrapAll(p.sent)
            && (forall k :: 0 <= k < |p.frames| ==>
                  && k < |p.sent|
                  && (p.sent[k].Chunk? ==> p.frames[k] == Data(p.sent[k].data))
                  && (p.sent[k].Fault? ==> p.frames[k] == StreamError(p.sent[k].error)))
            && (!p.readerGone ==> p.frames + p.second + InHand(p) + WrapAll(p.first) == WrapAll(p.sent))
            && (p.ended ==> p.frames == WrapAll(p.sent) && |p.frames| == |p.sent|)
  {
    RunsFifo(EMPTY, trace);
  }

  datatype PollResult = Pending | Ready(frame: Option<Frame>)

  /** The adapter, with both channels; its methods are the atomic steps of the tasks around it. */
  class StreamBody {
    var first: seq<Item>
    var closed: bool
    var pump: Pump
    var second: seq<Frame>
    var ended: bool
    var readerGone: bool
    ghost var sent: seq<Item>
    ghost var frames: seq<Frame>

    ghost function Snapshot(): Pipe
      reads this
    {
      Pipe(sent, first, closed, pump, second, frames, ended, readerGone)
    }

    ghost predicate Valid()
      reads this
    {
      Fifo(Snapshot())
    }

    constructor ()
      ensures Valid() && Snapshot() == EMPTY
    {
      first, closed, pump, second, ended, readerGone := [], false, Reading, [], false, false;
      sent, frames := [], [];
    }

    /** The broadcaster's send: it fails when the pump has dropped its end, and waits when full. */
    method Send(item: Item) returns (accepted: bool)
      requires Valid() && !closed
      modifies this
      ensures Valid() && accepted == Enabled(old(Snapshot()), Offer(item))
      ensures accepted <==> !old(pump).Stopped? && |old(first)| < 256
      ensures Snapshot() == if accepted then Next(old(Snapshot()), Offer(item)) else old(Snapshot())
    {
      accepted := !pump.Stopped? && |first| < CAPACITY;
      if accepted {
        NextFifo(Snapshot(), Offer(item));
        first := first + [item];
        sent := sent + [item];
      }
    }

    method CloseFirst()
      requires Valid() && !closed
      modifies this
      ensures Valid() && Snapshot() == Next(old(Snapshot()), Close)
    {
      closed := true;
    }

    /** stream.next() in the pump loop: an item, or the end of the loop. */
    method ReadStream()
      requires Valid() && Enabled(Snapshot(), PumpRead)
      modifies this
      ensures Valid() && Snapshot() == Next(old(Snapshot()), PumpRead)
      ensures old(first) == [] ==> pump == Stopped
      ensures old(first) != [] && old(first)[0].Chunk? ==> pump == Holding(Data(old(first)[0].data))
      ensures old(first) != [] && old(first)[0].Fault? ==> pump == Holding(StreamError(old(first)[0].error))
    {
      NextFifo(Snapshot(), PumpRead);
      if first != [] {
        pump, first := Holding(Wrap(first[0])), first[1..];
      } else {
        pump := Stopped;
      }
    }

    /** tx.send in the pump loop; a dropped reader breaks the loop and drops the stream. */
    method WriteChannel()
      requires Valid() && Enabled(Snapshot(), PumpWrite)
      modifies this
      ensures Valid() && Snapshot() == Next(old(Snapshot()), PumpWrite)
      ensures if readerGone then pump == Stopped && first == [] && second == old(second)
              else pump == Reading && second == old(second) + [old(pump).frame]
    {
      NextFifo(Snapshot(), PumpWrite);
      if readerGone {
        pump, first := Stopped, [];
      } else {
        pump, second := Reading, second + [pump.frame];
      }
    }

    method PollFrame() returns (r: PollResult)
      requires Valid() && !readerGone
      modifies this
      ensures Valid()
      ensures r.Pending? <==> !Enabled(old(Snapshot()), Poll)
      ensures r.Pending? ==> Snapshot() == old(Snapshot())
      ensures r.Ready? ==> Snapshot() == Next(old(Snapshot()), Poll)
      ensures r.Ready? && r.frame.Some? ==>
                && frames == old(frames) + [r.frame.value] && |old(frames)| < |sent|
                && (sent[|old(frames)|].Chunk? ==> r.frame.value == Data(sent[|old(frames)|].data))
                && (sent[|old(frames)|].Fault? ==> r.frame.value == StreamError(sent[|old(frames)|].error))
      ensures r == Ready(None) ==> frames == old(frames) == WrapAll(sent) && |frames| == |sent|
    {
      if second != [] {
        NextFifo(Snapshot(), Poll);
        r := Ready(Some(second[0]));
        frames := frames + [second[0]];
        second := second[1..];
      } else if pump.Stopped? {
        NextFifo(Snapshot(), Poll);
        ended := true;
        r := Ready(None);
      } else {
        r := Pending;
      }
    }

    method Drop()
      requires Valid() && !readerGone
      modifies this
      ensures Valid() && Snapshot() == Next(old(Snapshot()), DropReader)
    {
      NextFifo(Snapshot(), DropReader);
      readerGone, second := true, [];
    }
  }
}
