/** The filter-response cache of the tone effect, shared between any number of setters and the PCM thread.

    A run is a list of atomic steps: what a thread does between two lock operations or with one atomic
    variable.  Computing a response is an uninterpreted function of the control values and the rate. */
module Mseb {

  const CONTROL_COUNT: nat := 10
  const FILTER_COUNT: nat := 13

  datatype Config = Config(enabled: bool, values: seq<int>, width: real)

  datatype Response = Response(active: seq<bool>, coefficients: seq<seq<real>>, gain: real)

  /** Both channels' delay lines of one filter. */
  type History = seq<real>

  type Prepare = (seq<int>, nat) -> Response

  ghost predicate PrepareOk(prep: Prepare) {
    forall values, rate {:trigger prep(values, rate)} ::
      |prep(values, rate).active| == FILTER_COUNT && |prep(values, rate).coefficients| == FILTER_COUNT
  }

  function Neutral(): Config { Config(false, [0, 0, 0, 0, 0, 0, 0, 0, 0, 0], 1.0) }

  function ZeroHistory(): History { [0.0, 0.0, 0.0, 0.0, 0.0, 0.0, 0.0, 0.0] }

  function Cleared(): (h: seq<History>)
    ensures |h| == FILTER_COUNT && forall b {:trigger h[b]} :: 0 <= b < FILTER_COUNT ==> h[b] == ZeroHistory()
  {
    seq(FILTER_COUNT, _ => ZeroHistory())
  }

  /** What the setter accepts. */
  predicate Valid(c: Config) {
    && |c.values| == CONTROL_COUNT && 0.0 <= c.width <= 2.0
    && forall i {:trigger c.values[i]} :: 0 <= i < |c.values| ==> -100 <= c.values[i] <= 100
  }

  // ---- threads and shared state ----

  /** A setter: at rest; its rate read; its response at hand, not yet published; published, the lock still
      held and the switch not yet written. */
  datatype Setter =
    | Resting
    | Rated(config: Config, rate: nat)
    | Prepared(config: Config, rate: nat, response: Response)
    | Stored(config: Config)

  datatype Lock = Free | Held(thread: nat)

  datatype Args = Args(frames: nat, channels: int, rate: nat, s32: bool)

  /** The PCM thread inside `begin_block`, or processing frames of a block. */
  datatype Pcm = Outside
               | Entered(args: Args)
               | Admitted(args: Args)
               | Snapped(args: Args, config: Config, response: Response, responseRate: nat)
               | Processing

  /** A block as it was processed: the settings it took, its own rate and the response in force. */
  datatype Block = Block(config: Config, rate: nat, response: Response, coefficients: seq<seq<real>>)

  datatype State = State(
    requested: Config, prepared: Response, preparedRate: nat,  // under the lock
    lock: Lock, active: bool, observedRate: nat, discontinuity: bool,
    setters: map<nat, Setter>, pcm: Pcm,
    current: Config, currentRate: nat, currentChannels: int, currentS32: bool, running: bool,
    pcmResponse: Response, pcmCoefficients: seq<seq<real>>, histories: seq<History>,
    blocks: seq<Block>)

  function Initial(empty: Response): State {
    State(Neutral(), empty, 0, Free, false, 44100, false, map[], Outside,
          Neutral(), 0, 0, false, false, empty, empty.coefficients, Cleared(), [])
  }

  datatype Event = SetBegin(thread: nat, config: Config)
                 | SetLookUp(thread: nat)
                 | SetPublish(thread: nat)
                 | SetSwitch(thread: nat)
                 | NoteDiscontinuity
                 | BlockEnter(args: Args)
                 | BlockAdmit
                 | BlockSnapshot
                 | BlockConfigure
                 | BlockFrame(after: seq<History>)
                 | BlockEnd

  // ---- the setter ----

  function SetterOf(s: State, t: nat): Setter { if t in s.setters then s.setters[t] else Resting }

  /** Settings out of range are refused as a whole; otherwise the observed rate is read. */
  function OnSetBegin(s: State, t: nat, c: Config): State {
    if SetterOf(s, t).Resting? && Valid(c) then s.(setters := s.setters[t := Rated(c, s.observedRate)]) else s
  }

  /** Under the lock: the published response is reused when rate and values are the same. */
  predicate Reusable(s: State, c: Config, rate: nat) {
    s.preparedRate == rate && s.requested.values == c.values
  }

  /** A thread that needs the lock waits while another holds it. */
  function OnSetLookUp(prep: Prepare, s: State, t: nat): State {
    match SetterOf(s, t)
    case Rated(c, rate) =>
      if s.lock.Held? then s
      else
        var response := if Reusable(s, c, rate) then s.prepared else prep(c.values, rate);
        s.(setters := s.setters[t := Prepared(c, rate, response)])
    case _ => s
  }

  /** Takes the lock and publishes. */
  function OnSetPublish(s: State, t: nat): State {
    match SetterOf(s, t)
    case Prepared(c, rate, response) =>
      if s.lock.Held? then s
      else
        s.(requested := c, prepared := response, preparedRate := rate, lock := Held(t),
           setters := s.setters[t := Stored(c)])
    case _ => s
  }

  /** Writes the switch, which the PCM thread reads without the lock, and gives the lock back. */
  function OnSetSwitch(s: State, t: nat): State {
    match SetterOf(s, t)
    case Stored(c) => s.(active := c.enabled, lock := Free, setters := s.setters[t := Resting])
    case _ => s
  }

  // ---- the PCM thread ----

  function OnBlockEnter(s: State, args: Args): State {
    if !s.pcm.Outside? then s
    else s.(pcm := Entered(args), observedRate := if args.rate != 0 then args.rate else s.observedRate)
  }

  /** Stops when switched off or the block cannot be processed. */
  function OnBlockAdmit(s: State): State {
    match s.pcm
    case Entered(a) =>
      if !s.active || a.channels < 1 || a.channels > 2 || a.frames == 0 || a.rate == 0 then
        s.(pcm := Outside, running := false, histories := if s.running then Cleared() else s.histories)
      else s.(pcm := Admitted(a))
    case _ => s
  }

  function OnBlockSnapshot(s: State): State {
    match s.pcm
    case Admitted(a) =>
      if s.lock.Held? then s else s.(pcm := Snapped(a, s.requested, s.prepared, s.preparedRate))
    case _ => s
  }

  /** Filters the new response leaves out lose their history. */
  function Silenced(response: Response, histories: seq<History>): (h: seq<History>)
    requires |response.active| == |histories| == FILTER_COUNT
    ensures |h| == FILTER_COUNT
  {
    seq(FILTER_COUNT, b requires 0 <= b < FILTER_COUNT => if response.active[b] then histories[b] else ZeroHistory())
  }

  function Configured(prep: Prepare, s: State, a: Args, config: Config, response: Response, responseRate: nat): State
    requires PrepareOk(prep) && |response.active| == |s.histories| == FILTER_COUNT && |s.pcmResponse.active| == FILTER_COUNT
  {
    var renew := !s.running || s.current.values != config.values || a.rate != s.currentRate;
    var used := if !renew then s.pcmResponse else if responseRate == a.rate then response else prep(config.values, a.rate);
    var kept := if renew then Silenced(used, s.histories) else s.histories;
    var clear := s.discontinuity || !s.running || s.currentRate != a.rate || s.currentChannels != a.channels || s.currentS32 != a.s32;
    var coefficients := if renew then used.coefficients else s.pcmCoefficients;
    s.(pcm := Processing, discontinuity := false,
       pcmResponse := used, pcmCoefficients := coefficients, histories := if clear then Cleared() else kept,
       current := config, currentRate := a.rate, currentChannels := a.channels, currentS32 := a.s32, running := true,
       blocks := s.blocks + [Block(config, a.rate, used, coefficients)])
  }

  /** The thread's own caches: the response is taken over, computed or kept. */
  function OnBlockConfigure(prep: Prepare, s: State): State
    requires PrepareOk(prep) && Inv(prep, s)
  {
    match s.pcm
    case Snapped(a, config, response, responseRate) =>
      if !config.enabled then s.(pcm := Outside, running := false)
      else Configured(prep, s, a, config, response, responseRate)
    case _ => s
  }

  /** One frame runs through the active filters, whatever it leaves in their histories. */
  function OnBlockFrame(s: State, after: seq<History>): State
    requires |s.pcmResponse.active| == |s.histories| == FILTER_COUNT
  {
    if s.pcm.Processing? && |after| == FILTER_COUNT then
      s.(histories := seq(FILTER_COUNT, b requires 0 <= b < FILTER_COUNT =>
           if s.pcmResponse.active[b] then after[b] else s.histories[b]))
    else s
  }

  function OnBlockEnd(s: State): State { if s.pcm.Processing? then s.(pcm := Outside) else s }

  function Step(prep: Prepare, s: State, e: Event): State
    requires PrepareOk(prep) && Inv(prep, s)
  {
    match e
    case SetBegin(t, c) => OnSetBegin(s, t, c)
    case SetLookUp(t) => OnSetLookUp(prep, s, t)
    case SetPublish(t) => OnSetPublish(s, t)
    case SetSwitch(t) => OnSetSwitch(s, t)
    case NoteDiscontinuity => s.(discontinuity := true)
    case BlockEnter(args) => OnBlockEnter(s, args)
    case BlockAdmit => OnBlockAdmit(s)
    case BlockSnapshot => OnBlockSnapshot(s)
    case BlockConfigure => OnBlockConfigure(prep, s)
    case BlockFrame(after) => OnBlockFrame(s, after)
    case BlockEnd => OnBlockEnd(s)
  }

  // ---- the invariant ----

  /** A response is that of the values at the rate, unless nothing has been prepared yet. */
  predicate Coherent(prep: Prepare, values: seq<int>, rate: nat, response: Response) {
    rate == 0 || response == prep(values, rate)
  }

  predicate Shaped(r: Response) { |r.active| == FILTER_COUNT && |r.coefficients| == FILTER_COUNT }

  predicate SetterOk(prep: Prepare, t: Setter) {
    match t
    case Resting => true
    case Rated(c, rate) => Valid(c) && rate > 0
    case Prepared(c, rate, response) => Valid(c) && rate > 0 && response == prep(c.values, rate)
    case Stored(c) => Valid(c)
  }

  /** The switch is the published one, except while the setter that holds the lock has yet to write it. */
  predicate SwitchOk(s: State) {
    && (s.lock.Free? ==> s.active == s.requested.enabled)
    && (s.lock.Held? ==> SetterOf(s, s.lock.thread) == Stored(s.requested))
    && forall t {:trigger s.setters[t]} :: t in s.setters && s.setters[t].Stored? ==> s.lock == Held(t)
  }

  predicate ArgsOk(a: Args) { 1 <= a.channels <= 2 && a.frames > 0 && a.rate > 0 }

  predicate PcmOk(prep: Prepare, s: State) {
    match s.pcm
    case Outside => true
    case Entered(_) => true
    case Admitted(a) => ArgsOk(a)
    case Snapped(a, config, response, responseRate) =>
      ArgsOk(a) && Valid(config) && Shaped(response) && Coherent(prep, config.values, responseRate, response)
    case Processing => s.running
  }

  predicate BlockOk(prep: Prepare, b: Block) {
    Valid(b.config) && b.config.enabled && b.rate > 0
    && b.response == prep(b.config.values, b.rate) && b.coefficients == b.response.coefficients
  }

  /** While the effect runs, its caches are those of its own settings and rate, and inactive filters hold
      no history. */
  predicate RunningOk(prep: Prepare, s: State) {
    s.running ==>
      && |s.histories| == FILTER_COUNT && |s.pcmResponse.active| == FILTER_COUNT
      && s.currentRate > 0 && s.pcmResponse == prep(s.current.values, s.currentRate)
      && s.pcmCoefficients == s.pcmResponse.coefficients
      && forall b {:trigger s.histories[b]} :: 0 <= b < FILTER_COUNT && !s.pcmResponse.active[b] ==> s.histories[b] == ZeroHistory()
  }

  ghost predicate Inv(prep: Prepare, s: State) {
    && Valid(s.requested) && SwitchOk(s) && s.observedRate > 0
    && Shaped(s.prepared) && Coherent(prep, s.requested.values, s.preparedRate, s.prepared)
    && (forall t {:trigger s.setters[t]} :: t in s.setters ==> SetterOk(prep, s.setters[t]))
    && |s.histories| == FILTER_COUNT && Shaped(s.pcmResponse)
    && PcmOk(prep, s) && RunningOk(prep, s)
    && forall i {:trigger s.blocks[i]} :: 0 <= i < |s.blocks| ==> BlockOk(prep, s.blocks[i])
  }

  lemma InvInitial(prep: Prepare, empty: Response)
    requires Shaped(empty)
    ensures Inv(prep, Initial(empty))
  {
  }

  lemma ConfigureKeeps(prep: Prepare, s: State)
    requires PrepareOk(prep) && Inv(prep, s) && s.pcm.Snapped? && s.pcm.config.enabled
    ensures Inv(prep, Configured(prep, s, s.pcm.args, s.pcm.config, s.pcm.response, s.pcm.responseRate))
  {
  }

  lemma LookUpKeeps(prep: Prepare, s: State, t: nat)
    requires PrepareOk(prep) && Inv(prep, s)
    ensures Inv(prep, OnSetLookUp(prep, s, t))
  {
    hide Valid, BlockOk;
  }

  lemma PublishKeeps(prep: Prepare, s: State, t: nat)
    requires PrepareOk(prep) && Inv(prep, s)
    ensures Inv(prep, OnSetPublish(s, t)) && Inv(prep, OnSetSwitch(s, t))
  {
    hide Valid, BlockOk;
  }

  lemma FrameKeeps(prep: Prepare, s: State, after: seq<History>)
    requires PrepareOk(prep) && Inv(prep, s)
    ensures Inv(prep, OnBlockFrame(s, after)) && Inv(prep, OnBlockEnd(s))
  {
    hide Valid, SetterOk, BlockOk;
  }

  lemma AdmitKeeps(prep: Prepare, s: State)
    requires PrepareOk(prep) && Inv(prep, s)
    ensures Inv(prep, OnBlockAdmit(s)) && Inv(prep, OnBlockSnapshot(s))
  {
    hide Valid, SetterOk, BlockOk;
  }

  /** Every step of every thread keeps the invariant. */
  lemma StepKeeps(prep: Prepare, s: State, e: Event)
    requires PrepareOk(prep) && Inv(prep, s)
    ensures Inv(prep, Step(prep, s, e))
  {
    match e
    case SetBegin(_, _) => hide Valid, BlockOk;
    case SetLookUp(t) => LookUpKeeps(prep, s, t);
    case SetPublish(t) => PublishKeeps(prep, s, t);
    case SetSwitch(t) => PublishKeeps(prep, s, t);
    case NoteDiscontinuity =>
    case BlockEnter(_) =>
    case BlockAdmit => AdmitKeeps(prep, s);
    case BlockSnapshot => AdmitKeeps(prep, s);
    case BlockConfigure =>
      hide Configured, Valid;
      if s.pcm.Snapped? && s.pcm.config.enabled { ConfigureKeeps(prep, s); }
    case BlockFrame(after) => FrameKeeps(prep, s, after);
    case BlockEnd => FrameKeeps(prep, s, []);
  }

  /** A block that is let in runs under its own settings, rate and layout.  It starts from silence after a
      discontinuity, after a pause and when rate, channels or width change; otherwise the filters in use go
      on from where they were. */
  lemma ConfiguredIs(prep: Prepare, s: State)
    requires PrepareOk(prep) && Inv(prep, s) && s.pcm.Snapped? && s.pcm.config.enabled
    ensures var a, r := s.pcm.args, Step(prep, s, BlockConfigure);
            && r.running && r.pcm.Processing? && !r.discontinuity && |r.histories| == FILTER_COUNT
            && r.current == s.pcm.config && r.currentRate == a.rate && r.currentChannels == a.channels && r.currentS32 == a.s32
            && r.pcmResponse == prep(s.pcm.config.values, a.rate) && r.pcmCoefficients == r.pcmResponse.coefficients
            && forall b {:trigger r.histories[b]} :: 0 <= b < FILTER_COUNT ==>
                 r.histories[b] ==
                   if s.discontinuity || !s.running || s.currentRate != a.rate || s.currentChannels != a.channels ||
                      s.currentS32 != a.s32 || !r.pcmResponse.active[b]
                   then ZeroHistory() else s.histories[b]
  {
    ConfigureKeeps(prep, s);
    hide Valid, SetterOk, BlockOk, SwitchOk;
  }

  /** A block is let in exactly when the effect is switched on and the block has frames, a rate and one or two
      channels; otherwise the effect stops, and what its filters held is gone. */
  lemma AdmitIs(prep: Prepare, s: State)
    requires PrepareOk(prep) && Inv(prep, s) && s.pcm.Entered?
    ensures var a, r := s.pcm.args, Step(prep, s, BlockAdmit);
            if s.active && 1 <= a.channels <= 2 && a.frames > 0 && a.rate > 0 then r == s.(pcm := Admitted(a))
            else
              && r.pcm.Outside? && !r.running && r.blocks == s.blocks
              && forall b {:trigger r.histories[b]} :: 0 <= b < FILTER_COUNT ==>
                   r.histories[b] == if s.running then ZeroHistory() else s.histories[b]
  {
    hide Valid, SetterOk, BlockOk, SwitchOk;
  }

  /** A setter goes ahead exactly with ten values from -100 to 100 and a width from 0 to 2. */
  lemma BeginIs(prep: Prepare, s: State, t: nat, c: Config)
    requires PrepareOk(prep) && Inv(prep, s) && SetterOf(s, t).Resting?
    ensures var r := Step(prep, s, SetBegin(t, c));
            if |c.values| == 10 && 0.0 <= c.width <= 2.0 &&
               forall i {:trigger c.values[i]} :: 0 <= i < |c.values| ==> -100 <= c.values[i] <= 100
            then SetterOf(r, t) == Rated(c, s.observedRate) else r == s
  {
    hide PcmOk, RunningOk, SetterOk, BlockOk, SwitchOk;
  }

  /** Only a block that is processed uses a noted discontinuity up. */
  lemma NoteStays(prep: Prepare, s: State, e: Event)
    requires PrepareOk(prep) && Inv(prep, s) && s.discontinuity
    ensures var r := Step(prep, s, e); |r.blocks| >= |s.blocks| && (r.discontinuity <==> |r.blocks| == |s.blocks|)
  {
    hide Valid, Silenced, Reusable, Shaped, SetterOk, PcmOk, RunningOk, Coherent, SwitchOk;
  }

  /** The state after a list of steps, in whatever order the threads took them. */
  ghost function Run(prep: Prepare, s: State, events: seq<Event>): (r: State)
    requires PrepareOk(prep) && Inv(prep, s)
    ensures Inv(prep, r)
    decreases |events|
  {
    if events == [] then s
    else
      StepKeeps(prep, s, events[0]);
      Run(prep, Step(prep, s, events[0]), events[1..])
  }

  // ---- what holds over every run ----

  /** Cache coherence: whatever setters and PCM blocks are interleaved, the published response is that of
      the published values at the published rate, every block was processed with the response of its own
      settings and rate, and the switch the PCM thread reads without the lock is the published one whenever
      the lock is free. */
  lemma RunsAreCoherent(prep: Prepare, empty: Response, events: seq<Event>)
    requires PrepareOk(prep) && Shaped(empty)
    ensures Inv(prep, Initial(empty))
    ensures var s := Run(prep, Initial(empty), events);
            && Valid(s.requested) && SwitchOk(s)
            && (s.preparedRate != 0 ==> s.prepared == prep(s.requested.values, s.preparedRate))
            && (forall i {:trigger s.blocks[i]} :: 0 <= i < |s.blocks| ==>
                  s.blocks[i].config.enabled && s.blocks[i].response == prep(s.blocks[i].config.values, s.blocks[i].rate))
            && RunningOk(prep, s)
  {
    hide Run, Valid, Shaped, PcmOk, RunningOk;
    InvInitial(prep, empty);
  }

  lemma {:induction false} BlocksGrow(prep: Prepare, s: State, events: seq<Event>)
    requires PrepareOk(prep) && Inv(prep, s)
    ensures |Run(prep, s, events).blocks| >= |s.blocks|
    decreases |events|
  {
    hide Inv, Silenced;
    if events != [] {
      StepKeeps(prep, s, events[0]);
      StepBlocks(prep, s, events[0]);
      hide Step;
      BlocksGrow(prep, Step(prep, s, events[0]), events[1..]);
    }
  }

  lemma StepBlocks(prep: Prepare, s: State, e: Event)
    requires PrepareOk(prep) && Inv(prep, s)
    ensures |Step(prep, s, e).blocks| >= |s.blocks|
  {
    hide Valid, Silenced, Reusable, Shaped, SetterOk, PcmOk, RunningOk, Coherent, SwitchOk;
  }

  /** Whatever happens in between, a noted discontinuity waits for the next block that is processed, and that
      block starts from silence. */
  lemma {:induction false} NextBlockIsFresh(prep: Prepare, s: State, events: seq<Event>)
    requires PrepareOk(prep) && Inv(prep, s) && s.discontinuity
    requires |Run(prep, s, events).blocks| == |s.blocks|
    ensures var q := Run(prep, s, events);
            && q.discontinuity
            && (q.pcm.Snapped? && q.pcm.config.enabled ==>
                  forall b {:trigger Step(prep, q, BlockConfigure).histories[b]} ::
                    0 <= b < |Step(prep, q, BlockConfigure).histories| ==> Step(prep, q, BlockConfigure).histories[b] == ZeroHistory())
    decreases |events|
  {
    hide Inv, Step;
    if events != [] {
      StepKeeps(prep, s, events[0]);
      NoteStays(prep, s, events[0]);
      BlocksGrow(prep, Step(prep, s, events[0]), events[1..]);
      NextBlockIsFresh(prep, Step(prep, s, events[0]), events[1..]);
    } else if s.pcm.Snapped? && s.pcm.config.enabled {
      ConfiguredIs(prep, s);
    }
  }

  /** The settings in play all belong to a set: no thread ever sees a mixture of two. */
  ghost predicate Among(s: State, cs: set<Config>) {
    && (s.requested in cs || s.requested == Neutral())
    && (forall t {:trigger s.setters[t]} :: t in s.setters && !s.setters[t].Resting? ==> s.setters[t].config in cs)
    && (s.pcm.Snapped? ==> s.pcm.config in cs || s.pcm.config == Neutral())
    && forall i {:trigger s.blocks[i]} :: 0 <= i < |s.blocks| ==> s.blocks[i].config in cs
  }

  /** The settings submitted by the steps of a run. */
  function Submitted(events: seq<Event>): set<Config> {
    if events == [] then {}
    else Submitted(events[1..]) + if events[0].SetBegin? then {events[0].config} else {}
  }

  lemma AmongStep(prep: Prepare, s: State, e: Event, cs: set<Config>)
    requires PrepareOk(prep) && Inv(prep, s) && Among(s, cs) && (e.SetBegin? ==> e.config in cs)
    ensures Among(Step(prep, s, e), cs)
  {
    hide Silenced, Valid, Reusable, Shaped, SetterOk, PcmOk, RunningOk, Coherent;
  }

  lemma {:induction false} AmongRun(prep: Prepare, s: State, events: seq<Event>, cs: set<Config>)
    requires PrepareOk(prep) && Inv(prep, s) && Among(s, cs) && Submitted(events) <= cs
    ensures Among(Run(prep, s, events), cs)
    decreases |events|
  {
    hide Among, Step, Inv;
    if events != [] {
      StepKeeps(prep, s, events[0]);
      AmongStep(prep, s, events[0], cs);
      AmongRun(prep, Step(prep, s, events[0]), events[1..], cs);
    }
  }

  /** Every block was processed under settings that some setter submitted as a whole. */
  lemma BlocksWereSubmitted(prep: Prepare, empty: Response, events: seq<Event>)
    requires PrepareOk(prep) && Shaped(empty) && Inv(prep, Initial(empty))
    ensures var s := Run(prep, Initial(empty), events);
            forall i {:trigger s.blocks[i]} :: 0 <= i < |s.blocks| ==> s.blocks[i].config in Submitted(events)
  {
    hide Run, Submitted, Inv;
    AmongRun(prep, Initial(empty), events, Submitted(events));
  }
}
