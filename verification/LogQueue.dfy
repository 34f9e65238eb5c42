/** The never-blocking log writer (pkg/asynclog/asynclog.go). Each event below is
    one channel or atomic operation of a writer or of the drainer. */
module LogQueue {

  /** What the drainer is doing: waiting on the channel, writing a line out, or
      about to swap the dropped counter. */
  datatype Drainer = Idle | Writing(line: string) | Reporting

  datatype Log = Log(depth: nat, queue: seq<string>, dropped: nat, drainer: Drainer, out: seq<string>, reported: nat)

  /** The select in Write: there is room in the buffer, or the drainer is waiting
      to receive. */
  predicate Room(l: Log) {
    |l.queue| < l.depth || (l.queue == [] && l.drainer.Idle?)
  }

  function Wrote(l: Log, line: string): Log {
    if |l.queue| < l.depth then l.(queue := l.queue + [line])
    else if l.queue == [] && l.drainer.Idle? then l.(drainer := Writing(line))
    else l.(dropped := l.dropped + 1)
  }

  class Writer {
    const depth: nat
    var queue: seq<string>
    var dropped: nat
    var drainer: Drainer
    var out: seq<string>        // lines handed to the output
    var reported: nat           // drops named in a report line

    ghost function View(): Log
      reads this
    {
      Log(depth, queue, dropped, drainer, out, reported)
    }

    constructor (depth: nat)
      ensures View() == Log(depth, [], 0, Idle, [], 0)
    {
      this.depth := depth;
      queue, dropped, drainer, out, reported := [], 0, Idle, [], 0;
    }

    method Write(line: string)
      modifies this
      ensures View() == Wrote(old(View()), line)
      // exactly one of: queued behind the others, handed to a waiting drainer, counted
      ensures if |old(queue)| < depth then queue == old(queue) + [line] && dropped == old(dropped)
              else if old(queue) == [] && old(drainer).Idle? then drainer == Writing(line) && dropped == old(dropped)
              else queue == old(queue) && drainer == old(drainer) && dropped == old(dropped) + 1
    {
      if |queue| < depth {
        queue := queue + [line];
      } else if queue == [] && drainer.Idle? {
        drainer := Writing(line);
      } else {
        dropped := dropped + 1;
      }
    }

    /** One turn of run's loop: receive, write out, report what was dropped. */
    method DrainOne()
      requires drainer.Idle? && queue != []
      modifies this
      ensures View() == Reported(Handed(Taken(old(View()))))
      // the oldest line is out, and every drop so far is named and the counter back at 0
      ensures out == old(out) + [old(queue)[0]] && queue == old(queue)[1..] && drainer.Idle?
      ensures dropped == 0 && reported == old(reported) + old(dropped)
    {
      drainer := Writing(queue[0]);
      queue := queue[1..];
      out := out + [drainer.line];
      drainer := Reporting;
      if dropped > 0 {
        reported := reported + dropped;
        dropped := 0;
      }
      drainer := Idle;
    }
  }

  function Taken(l: Log): Log
    requires l.drainer.Idle? && l.queue != []
  {
    l.(drainer := Writing(l.queue[0]), queue := l.queue[1..])
  }

  function Handed(l: Log): Log
    requires l.drainer.Writing?
  {
    l.(out := l.out + [l.drainer.line], drainer := Reporting)
  }

  function Reported(l: Log): Log
    requires l.drainer.Reporting?
  {
    l.(reported := l.reported + l.dropped, dropped := 0, drainer := Idle)
  }

  // ---- interleavings ----

  datatype Event = Write(line: string) | Take | Hand | Report

  predicate Possible(l: Log, e: Event) {
    match e
    case Write(_) => true
    case Take => l.drainer.Idle? && l.queue != []
    case Hand => l.drainer.Writing?
    case Report => l.drainer.Reporting?
  }

  function Apply(l: Log, e: Event): Log
    requires Possible(l, e)
  {
    match e
    case Write(line) => Wrote(l, line)
    case Take => Taken(l)
    case Hand => Handed(l)
    case Report => Reported(l)
  }

  /** A run, with the lines written in call order and which of them were kept. */
  ghost predicate Run(l: Log, events: seq<Event>, l': Log, written: seq<string>, kept: seq<bool>)
    decreases |events|
  {
    if events == [] then l == l' && written == [] && kept == []
    else
      && Possible(l, events[0])
      && match events[0]
         case Write(line) => && written != [] && kept != [] && written[0] == line && kept[0] == Room(l)
                             && Run(Apply(l, events[0]), events[1..], l', written[1..], kept[1..])
         case _ => Run(Apply(l, events[0]), events[1..], l', written, kept)
  }

  function Selected(written: seq<string>, kept: seq<bool>): seq<string>
    requires |written| == |kept|
  {
    if written == [] then []
    else (if kept[0] then [written[0]] else []) + Selected(written[1..], kept[1..])
  }

  /** Lines accepted and not lost, oldest first: handed out, in flight, queued. */
  function Pipeline(l: Log): seq<string> {
    l.out + (if l.drainer.Writing? then [l.drainer.line] else []) + l.queue
  }

  /** In every interleaving: the lines in the output, in flight and in the queue
      are, in call order, exactly the lines that were kept, and every other line
      written is counted once, as dropped or as reported. */
  lemma {:induction false} LinesAreConserved(l: Log, events: seq<Event>, l': Log, written: seq<string>, kept: seq<bool>)
    requires Run(l, events, l', written, kept)
    ensures |written| == |kept|
    ensures Pipeline(l') == Pipeline(l) + Selected(written, kept)
    ensures |written| == |Selected(written, kept)| + (l'.dropped + l'.reported) - (l.dropped + l.reported)
    decreases |events|
  {
    if events != [] {
      var e, next := events[0], Apply(l, events[0]);
      match e {
        case Write(line) =>
          LinesAreConserved(next, events[1..], l', written[1..], kept[1..]);
          assert Pipeline(next) == Pipeline(l) + if kept[0] then [line] else [];
        case _ =>
          LinesAreConserved(next, events[1..], l', written, kept);
          assert Pipeline(next) == Pipeline(l);
      }
    }
  }

  /** From a new writer: written = handed out + in flight + queued + counted drops
      + reported drops. */
  lemma EveryLineIsAccountedFor(depth: nat, events: seq<Event>, l: Log, written: seq<string>, kept: seq<bool>)
    requires Run(Log(depth, [], 0, Idle, [], 0), events, l, written, kept)
    ensures |written| == |l.out| + (if l.drainer.Writing? then 1 else 0) + |l.queue| + l.dropped + l.reported
    ensures |kept| == |written| && l.out <= Selected(written, kept)
  {
    LinesAreConserved(Log(depth, [], 0, Idle, [], 0), events, l, written, kept);
    assert Pipeline(l) == Selected(written, kept);
  }

  /** And a report names every line dropped so far, in every interleaving: after it
      the counter is 0 and the drops reported are the lines written and not kept. */
  lemma ReportNamesEveryDrop(depth: nat, events: seq<Event>, l: Log, written: seq<string>, kept: seq<bool>)
    requires Run(Log(depth, [], 0, Idle, [], 0), events, l, written, kept) && l.drainer.Reporting?
    ensures |kept| == |written|
    ensures var l' := Apply(l, Report);
            && l'.dropped == 0 && l'.reported == |written| - |Selected(written, kept)|
            && l'.drainer.Idle? && l'.out == l.out && l'.queue == l.queue
  {
    LinesAreConserved(Log(depth, [], 0, Idle, [], 0), events, l, written, kept);
  }
}
