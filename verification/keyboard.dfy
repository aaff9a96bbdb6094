/** The matrix scanner feeding the tap-hold engine: the two models put together. */
module Keyboard {
  import opened Events
  import opened Matrix
  import opened Tapping
  import opened TappingOrder
  import opened TappingSynthetic
  import opened HostView

  /** `es` is the event stream of the scans, with ticks anywhere in between. */
  ghost predicate FedBy(l: Layout, scans: seq<Scan>, es: seq<Event>) {
    && (forall i :: 0 <= i < |scans| ==> |scans[i].matrix| == l.rows)
    && NonTick(es) == Stream(l, scans)
  }

  /** Whatever is scanned, the engine's input takes turns key by key. */
  lemma ScannedInputAlternates(l: Layout, scans: seq<Scan>, es: seq<Event>)
    requires FedBy(l, scans, es)
    ensures AlternatesPerKey(es)
  {
    forall k ensures Alternates(Project(k, NonTick(es))) {
      StreamTellsState(l, scans, k);
    }
  }

  /** What has been handed over of a key, made-up releases aside, is the beginning of what its switch did. */
  lemma SwitchIsFollowed(l: Layout, scans: seq<Scan>, cfg: Config, es: seq<Event>, k: Key)
    requires FedBy(l, scans, es)
    requires KeyboardCleared !in Run(cfg, es).world.log && SafeThroughout(cfg, es)
    ensures var own := Project(k, Emitted(Run(cfg, es).world.log));
      own <= Project(k, Stream(l, scans)) && PressFirst(own)
  {
    ScannedInputAlternates(l, scans, es);
    OrderedPrefix(cfg, es, k);
    StreamTellsState(l, scans, k);
    var own, switch := Project(k, Emitted(Run(cfg, es).world.log)), Project(k, Stream(l, scans));
    assert forall i :: 0 <= i < |own| ==> own[i] == switch[i];
  }

  /**
   From switch to host: everything `process_record` is handed of a key is press, release, press, ...
   if and only if no made-up release of it has been followed by another event of it.
   */
  lemma HostHearsTurnsIff(l: Layout, scans: seq<Scan>, cfg: Config, es: seq<Event>, k: Key)
    requires FedBy(l, scans, es)
    requires KeyboardCleared !in Run(cfg, es).world.log && SafeThroughout(cfg, es)
    ensures var log := Run(cfg, es).world.log;
      var heard := Project(k, Heard(log));
      && (Alternates(heard) <==> NoneAfterMadeUp(log, k))
      && (heard != [] ==> heard[0].pressed)
  {
    SwitchIsFollowed(l, scans, cfg, es, k);
    SyntheticReleasesAreCovered(cfg, es);
    HeardTurnsIff(Run(cfg, es).world.log, k);
    HeardLast(Run(cfg, es).world.log, k);
  }

  /**
   When nothing is pending any more, the host has a key as the matrix has it, if and only if
   the last it was told of that key was not a made-up release.
   */
  lemma IdleHostKnowsMatrixIff(l: Layout, scans: seq<Scan>, cfg: Config, es: seq<Event>, k: Key)
    requires FedBy(l, scans, es)
    requires KeyboardCleared !in Run(cfg, es).world.log && SafeThroughout(cfg, es)
    requires Run(cfg, es).buffer == [] && !IsUnsettled(Run(cfg, es).tapping)
    ensures var log := Run(cfg, es).world.log;
      HostDown(log, k) == KeyDown(l, PreviousAfter(l, scans), k) <==> !LastMadeUp(log, k)
    ensures LastMadeUp(Run(cfg, es).world.log, k) ==> KeyDown(l, PreviousAfter(l, scans), k)
  {
    ScannedInputAlternates(l, scans, es);
    RunOrderIff(cfg, es);
    RunInv(cfg, es);
    StreamTellsState(l, scans, k);
    IdleFlow(Run(cfg, es));
    SwitchIsFollowed(l, scans, cfg, es, k);
    SyntheticReleasesAreCovered(cfg, es);
    HeardLast(Run(cfg, es).world.log, k);
  }

  /**
   A condition to be checked event by event: as long as no press takes over from the key while it is held after more
   than one tap, the host hears its presses and releases in turn, and when idle has it as the matrix has it.
   */
  lemma HostKeepsKey(l: Layout, scans: seq<Scan>, cfg: Config, es: seq<Event>, k: Key)
    requires FedBy(l, scans, es)
    requires KeyboardCleared !in Run(cfg, es).world.log && SafeThroughout(cfg, es)
    requires !RunLetsGo(cfg, es, k)
    ensures PressFirst(Project(k, Heard(Run(cfg, es).world.log)))
    ensures Run(cfg, es).buffer == [] && !IsUnsettled(Run(cfg, es).tapping) ==>
      HostDown(Run(cfg, es).world.log, k) == KeyDown(l, PreviousAfter(l, scans), k)
  {
    RunMadeUpIff(cfg, es, k);
    NeverMadeUp(Run(cfg, es).world.log, k);
    HostHearsTurnsIff(l, scans, cfg, es, k);
    if Run(cfg, es).buffer == [] && !IsUnsettled(Run(cfg, es).tapping) {
      IdleHostKnowsMatrixIff(l, scans, cfg, es, k);
    }
  }

  lemma IdleFlow(s: State)
    requires s.buffer == [] && !IsUnsettled(s.tapping)
    ensures Flow(s) == Emitted(s.world.log)
  {
  }
}
