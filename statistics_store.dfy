/** The request-latency watchdog of ERXStatisticsStore: per-thread start times, three
    snapshot-once stores (warn, error, fatal), the periodic scan pass, the end-of-request
    handshake with its rate-limited trace rendering, and the session-memory average.
    Threads are opaque ids, the clock is an explicit `now`, and the process-wide stack
    dump is a value handed to the scan pass. */
module StatisticsStore {
  import opened Wrappers
  import JavaInt
  import ArrayUtilities

  type ThreadId = nat

  /** One stack frame: the class it runs in (absent when unknown) and its printed form. */
  datatype Frame = Frame(className: Option<string>, text: string)

  /** A live thread: its id, its name, its group (absent once the thread has ended) and
      its printed form (`Thread.toString`). */
  datatype ThreadRecord = ThreadRecord(id: ThreadId, name: string, group: Option<string>, text: string)

  /** One entry of a stack dump; the stack is absent when the dump holds no array for the thread. */
  datatype TraceEntry = TraceEntry(thread: ThreadRecord, stack: Option<seq<Frame>>)

  /** A stack dump of every live thread, in the dump's iteration order. */
  datatype Snapshot = Snapshot(entries: seq<TraceEntry>)

  /** Thread names captured together with a snapshot. */
  type Names = map<ThreadId, string>

  datatype LogLevel = Silent | WarnLevel | ErrorLevel

  datatype Tier = Warn | Error | Fatal

  function Rank(tier: Tier): nat {
    match tier
    case Warn => 0
    case Error => 1
    case Fatal => 2
  }

  /** The thresholds used when the `milliSeconds.warn`, `.error` and `.fatal` properties are unset. */
  const DefaultWarnMillis: int := 2000
  const DefaultErrorMillis: int := 10000
  const DefaultFatalMillis: int := 5 * 60 * 1000

  /** Trace rendering happens at most once in this many milliseconds. */
  const LogWindowMillis: int := 10000

  const SkippedTraces: string := " - (skipped stack traces)"

  // ---------------------------------------------------------------------------
  // The trace filter and renderer (stringFromTracesAndNames)
  // ---------------------------------------------------------------------------

  /** A dump entry worth printing: a stack deeper than two frames, not the main thread,
      not the watchdog, not in the system group, and not parked in a socket primitive. */
  predicate Interesting(e: TraceEntry) {
    && e.stack.Some?
    && |e.stack.value| > 2
    && e.thread.name != "main"
    && e.thread.name != "ERXStopWatchTimer"
    && e.thread.group != Some("system")
    && e.stack.value[0].className.Some?
    && e.stack.value[0].className.value != "java.net.PlainSocketImpl"
  }

  /** The entries the renderer keeps, in dump order. */
  function Kept(es: seq<TraceEntry>): seq<TraceEntry> {
    if es == [] then []
    else Kept(es[..|es| - 1]) + (if Interesting(es[|es| - 1]) then [es[|es| - 1]] else [])
  }

  function FramesText(frames: seq<Frame>): string {
    if frames == [] then [] else FramesText(frames[..|frames| - 1]) + "\tat " + frames[|frames| - 1].text + "\n"
  }

  /** The text printed for one kept entry: the captured name if one was recorded, the
      thread, then every frame. */
  function Block(e: TraceEntry, names: Option<Names>): string {
    (if names.Some? && e.thread.id in names.value then names.value[e.thread.id] + ":\n" else "")
    + e.thread.text + ":\n" + FramesText(e.stack.GetOr([]))
  }

  function Blocks(es: seq<TraceEntry>, names: Option<Names>): string {
    if es == [] then [] else Blocks(es[..|es| - 1], names) + Block(es[|es| - 1], names)
  }

  /** The name under which the requesting thread is reported: its live name when no names
      were captured, else the captured one ("null" when the capture lacks it). */
  function CapturedName(names: Option<Names>, current: ThreadRecord): string {
    if names.None? then current.name
    else if current.id in names.value then names.value[current.id]
    else "null"
  }

  function Header(names: Option<Names>, current: ThreadRecord): string {
    "\nRequest Thread Name: " + CapturedName(names, current) + "\n\n"
  }

  /** The rendered report: empty without a snapshot, else a newline, the header and the
      blocks of the kept entries. */
  function Render(traces: Option<Snapshot>, names: Option<Names>, current: ThreadRecord): string {
    if traces.None? then ""
    else "\n" + Header(names, current) + Blocks(Kept(traces.value.entries), names)
  }

  /** An entry is printed exactly when it is in the dump and passes the filter. */
  lemma {:induction false} KeptMembership(es: seq<TraceEntry>, e: TraceEntry)
    ensures e in Kept(es) <==> e in es && Interesting(e)
  {
    if es != [] {
      var init := es[..|es| - 1];
      KeptMembership(init, e);
      assert es == init + [es[|es| - 1]];
    }
  }

  /** Filtering keeps order: kept entries appear in the dump at increasing positions. */
  lemma {:induction false} KeptIsSubsequence(es: seq<TraceEntry>)
    ensures |Kept(es)| <= |es|
    ensures Kept(es) == es <==> forall i :: 0 <= i < |es| ==> Interesting(es[i])
  {
    if es != [] {
      var init := es[..|es| - 1];
      KeptIsSubsequence(init);
      if !Interesting(es[|es| - 1]) {
        assert Kept(es) != es;
      } else if Kept(init) != init {
        assert Kept(es) == Kept(init) + [es[|es| - 1]];
        assert Kept(es)[..|Kept(init)|] == Kept(init);
      }
    }
  }

  /** A missing snapshot renders as the empty string; a present one always yields the header. */
  lemma RenderShape(traces: Option<Snapshot>, names: Option<Names>, current: ThreadRecord)
    ensures traces.None? <==> Render(traces, names, current) == ""
    ensures traces.Some? ==> Render(traces, names, current)[..|Header(names, current)| + 1] == "\n" + Header(names, current)
  {
  }

  /** One kept entry's text, built frame by frame. */
  method RenderBlock(e: TraceEntry, names: Option<Names>) returns (block: string)
    ensures block == Block(e, names)
  {
    var prefix := (if names.Some? && e.thread.id in names.value then names.value[e.thread.id] + ":\n" else "")
      + e.thread.text + ":\n";
    var frames := e.stack.GetOr([]);
    var lines := "";
    var k := 0;
    while k < |frames|
      invariant 0 <= k <= |frames|
      invariant lines == FramesText(frames[..k])
    {
      assert frames[..k + 1][..k] == frames[..k];
      lines := lines + "\tat " + frames[k].text + "\n";
      k := k + 1;
    }
    assert frames[..k] == frames;
    block := prefix + lines;
  }

  lemma KeptSnoc(es: seq<TraceEntry>, i: nat)
    requires i < |es|
    ensures Kept(es[..i + 1]) == Kept(es[..i]) + (if Interesting(es[i]) then [es[i]] else [])
  {
    assert es[..i + 1][..i] == es[..i];
  }

  lemma BlocksSnoc(es: seq<TraceEntry>, e: TraceEntry, names: Option<Names>)
    ensures Blocks(es + [e], names) == Blocks(es, names) + Block(e, names)
  {
    assert (es + [e])[..|es|] == es;
  }

  /** stringFromTracesAndNames: walks the dump, appending one block per kept entry, and
      finally inserts a newline in front. */
  method StringFromTracesAndNames(traces: Option<Snapshot>, names: Option<Names>, current: ThreadRecord)
    returns (trace: string)
    ensures trace == Render(traces, names, current)
  {
    if traces.None? {
      trace := "";
      return;
    }
    var es := traces.value.entries;
    var header := Header(names, current);
    var body := "";
    var i := 0;
    while i < |es|
      invariant 0 <= i <= |es|
      invariant body == Blocks(Kept(es[..i]), names)
    {
      KeptSnoc(es, i);
      if Interesting(es[i]) {
        var block := RenderBlock(es[i], names);
        BlocksSnoc(Kept(es[..i]), es[i], names);
        body := body + block;
      } else {
        assert Kept(es[..i + 1]) == Kept(es[..i]);
      }
      i := i + 1;
    }
    assert es[..i] == es;
    trace := "\n" + header + body;
  }

  // ---------------------------------------------------------------------------
  // Snapshot-once stores
  // ---------------------------------------------------------------------------

  /** What a tier holds for a thread: the dump taken for it and the thread names captured
      with that dump. The source keeps the two in parallel maps (`_warnTraces` and
      `_warnTracesNames`, and likewise for error and fatal) that are always written and
      cleared together. */
  datatype Recorded = Recorded(traces: Snapshot, names: Names)

  /** One tier's store, by thread. */
  type Store = map<ThreadId, Recorded>

  /** Threads of a start-time registry whose elapsed time at `now` exceeds `limit`. */
  function Due(starts: map<ThreadId, int>, now: int, limit: int): (due: set<ThreadId>)
    ensures due <= starts.Keys
  {
    set t | t in starts && now - starts[t] > limit
  }

  /** The threads a store would newly record: due and not yet recorded. */
  function Fresh(store: Store, due: set<ThreadId>): set<ThreadId> {
    due - store.Keys
  }

  /** recordIfAbsent for every due thread: existing entries stay, fresh ones get `r`. */
  function Escalate(store: Store, due: set<ThreadId>, r: Recorded): Store {
    store + map t | t in Fresh(store, due) :: r
  }

  /** Snapshot-once: an escalation never replaces an entry, records every due thread, and
      records nothing else. */
  lemma EscalateKeepsExisting(store: Store, due: set<ThreadId>, r: Recorded)
    ensures Escalate(store, due, r).Keys == store.Keys + due
    ensures forall t :: t in store ==> Escalate(store, due, r)[t] == store[t]
    ensures forall t :: t in due && t !in store ==> Escalate(store, due, r)[t] == r
  {
  }

  /** Repeated passes over the same overdue threads store nothing new. */
  lemma EscalateIdempotent(store: Store, due: set<ThreadId>, r: Recorded, r': Recorded)
    ensures Escalate(Escalate(store, due, r), due, r') == Escalate(store, due, r)
  {
    var once := Escalate(store, due, r);
    assert Fresh(once, due) == {};
  }

  /** recordIfAbsent for one thread: the store gains `r` for `t` only when `t` is over its
      limit and holds nothing yet. */
  function Record(store: Store, t: ThreadId, over: bool, r: Recorded): Store {
    if over && t !in store then store[t := r] else store
  }

  /** Escalating over no due thread leaves the store as it is. */
  lemma EscalateNothing(store: Store, r: Recorded)
    ensures Escalate(store, {}, r) == store
  {
    assert Escalate(store, {}, r).Keys == store.Keys;
  }

  /** An escalation changes the store exactly when some thread is fresh. */
  lemma EscalateChanges(store: Store, due: set<ThreadId>, r: Recorded)
    ensures Escalate(store, due, r) == store <==> Fresh(store, due) == {}
  {
    if Fresh(store, due) != {} {
      var t :| t in Fresh(store, due);
      assert t in Escalate(store, due, r) && t !in store;
    } else {
      assert (map t | t in Fresh(store, due) :: r) == map[];
    }
  }

  /** Handling one more thread of the pass extends the escalation by that thread alone. */
  lemma EscalateStep(store: Store, due: set<ThreadId>, remaining: set<ThreadId>, t: ThreadId, r: Recorded)
    requires t in remaining
    ensures t in Escalate(store, due - remaining, r) <==> t in store
    ensures Record(Escalate(store, due - remaining, r), t, t in due, r) == Escalate(store, due - (remaining - {t}), r)
  {
  }

  /** Scanning `t` adds it to the fresh set exactly when it is due and not yet recorded. */
  lemma FreshStep(store: Store, due: set<ThreadId>, remaining: set<ThreadId>, t: ThreadId)
    requires t in remaining
    ensures t !in Fresh(store, due - remaining)
    ensures t in Fresh(store, due) ==> Fresh(store, due - (remaining - {t})) == Fresh(store, due - remaining) + {t}
    ensures t !in Fresh(store, due) ==> Fresh(store, due - (remaining - {t})) == Fresh(store, due - remaining)
  {
  }

  /** Adding a new element grows a set by one. */
  lemma GrowByOne(s: set<ThreadId>, t: ThreadId)
    requires t !in s
    ensures |s + {t}| == |s| + 1
  {
  }

  /** Membership in the due set is the elapsed-time test of the scan. */
  lemma DueMember(starts: map<ThreadId, int>, now: int, t: ThreadId, limit: int)
    requires t in starts
    ensures t in Due(starts, now, limit) <==> now - starts[t] > limit
  {
  }

  /** With ordered thresholds, a thread overdue for a higher tier is overdue for the lower ones. */
  lemma DueNested(starts: map<ThreadId, int>, now: int, warn: int, error: int, fatal: int)
    requires 0 <= warn <= error <= fatal
    ensures Due(starts, now, fatal) <= Due(starts, now, Half(error)) <= Due(starts, now, Half(warn))
  {
    HalfMonotone(warn, error);
    JavaInt.DivTruncates(error, 2);
  }

  /** Half a threshold, with Java's truncating long division. */
  function Half(x: int): int {
    JavaInt.Div(x, 2)
  }

  lemma HalfMonotone(x: int, y: int)
    requires x <= y
    ensures Half(x) <= Half(y)
  {
  }

  /** The diagnostic logged for a thread that newly turned fatal: its elapsed time, the
      rendered dump, and the two lock descriptions. */
  datatype FatalReport = FatalReport(elapsed: int, traces: string, ecInfo: string, oscInfo: string)
  {
    /** The text written to the log: the deadlock warning first, the store coordinator's locks last. */
    function Message(): (m: string)
      ensures |m| >= |DeadlockWarning| + |oscInfo| && m[..|DeadlockWarning|] == DeadlockWarning
      ensures m[|m| - |oscInfo|..] == oscInfo
    {
      DeadlockWarning + JavaInt.ToString(elapsed) + " ms "
      + traces + "EC info:\n" + ecInfo + "OSC info:\n" + oscInfo
    }
  }

  const DeadlockWarning: string := "Request is taking too long, possible deadlock: "

  /** The ids of the threads in a dump. */
  function Ids(es: seq<TraceEntry>): set<ThreadId> {
    set i | 0 <= i < |es| :: es[i].thread.id
  }

  /** The names map built for a dump: every thread of the dump with its current name. */
  function NamesOf(es: seq<TraceEntry>, nameOf: ThreadId -> string): Names {
    map t | t in Ids(es) :: nameOf(t)
  }

  /** getCurrentThreadNames: one entry per thread of the dump. */
  method CurrentThreadNames(es: seq<TraceEntry>, nameOf: ThreadId -> string) returns (names: Names)
    ensures names == NamesOf(es, nameOf)
    ensures names.Keys == Ids(es)
  {
    names := map[];
    var i := 0;
    while i < |es|
      invariant 0 <= i <= |es|
      invariant names == NamesOf(es[..i], nameOf)
    {
      assert Ids(es[..i + 1]) == Ids(es[..i]) + {es[i].thread.id} by {
        assert forall j :: 0 <= j < i ==> es[..i + 1][j] == es[..i][j];
      }
      names := names[es[i].thread.id := nameOf(es[i].thread.id)];
      i := i + 1;
    }
    assert es[..i] == es;
  }

  /** The three stores of a watchdog, as values. */
  datatype Stores = Stores(warn: Store, error: Store, fatal: Store)

  /** The threads over each tier's limit in one pass. */
  datatype Dues = Dues(warn: set<ThreadId>, error: set<ThreadId>, fatal: set<ThreadId>)

  /** The stores once every due thread outside `remaining` has been scanned. */
  function Scanned(s0: Stores, d: Dues, remaining: set<ThreadId>, r: Recorded): Stores {
    Stores(Escalate(s0.warn, d.warn - remaining, r), Escalate(s0.error, d.error - remaining, r),
           Escalate(s0.fatal, d.fatal - remaining, r))
  }

  /** Some tier has freshly recorded a thread outside `remaining`. */
  predicate Touched(s0: Stores, d: Dues, remaining: set<ThreadId>) {
    Fresh(s0.warn, d.warn - remaining) + Fresh(s0.error, d.error - remaining) + Fresh(s0.fatal, d.fatal - remaining) != {}
  }

  /** Scanning one more thread extends the escalation of every tier by that thread. */
  lemma ScanExtends(s0: Stores, d: Dues, remaining: set<ThreadId>, t: ThreadId, r: Recorded)
    requires t in remaining
    ensures var cur := Scanned(s0, d, remaining, r);
      && (t in cur.warn <==> t in s0.warn) && (t in cur.error <==> t in s0.error) && (t in cur.fatal <==> t in s0.fatal)
      && Stores(Record(cur.warn, t, t in d.warn, r), Record(cur.error, t, t in d.error, r), Record(cur.fatal, t, t in d.fatal, r))
         == Scanned(s0, d, remaining - {t}, r)
    ensures Touched(s0, d, remaining - {t}) <==>
      (Touched(s0, d, remaining) || (t in d.warn && t !in s0.warn) || (t in d.error && t !in s0.error)
       || (t in d.fatal && t !in s0.fatal))
  {
    EscalateStep(s0.warn, d.warn, remaining, t, r);
    EscalateStep(s0.error, d.error, remaining, t, r);
    EscalateStep(s0.fatal, d.fatal, remaining, t, r);
  }

  /** Before any due thread is scanned the stores are untouched. */
  lemma ScanStarts(s0: Stores, d: Dues, remaining: set<ThreadId>, r: Recorded)
    requires d.warn <= remaining && d.error <= remaining && d.fatal <= remaining
    ensures Scanned(s0, d, remaining, r) == s0
    ensures !Touched(s0, d, remaining)
  {
    assert d.warn - remaining == {} && d.error - remaining == {} && d.fatal - remaining == {};
    EscalateNothing(s0.warn, r);
    EscalateNothing(s0.error, r);
    EscalateNothing(s0.fatal, r);
  }

  /** Once nothing remains, every tier is escalated over all its due threads. */
  lemma ScanEnds(s0: Stores, d: Dues, r: Recorded)
    ensures Scanned(s0, d, {}, r) == Stores(Escalate(s0.warn, d.warn, r), Escalate(s0.error, d.error, r), Escalate(s0.fatal, d.fatal, r))
    ensures Touched(s0, d, {}) <==> Fresh(s0.warn, d.warn) + Fresh(s0.error, d.error) + Fresh(s0.fatal, d.fatal) != {}
    ensures d.fatal - {} == d.fatal
  {
    assert d.warn - {} == d.warn && d.error - {} == d.error && d.fatal - {} == d.fatal;
  }

  /** The snapshot of a recorded entry, if any. */
  function TracesOf(r: Option<Recorded>): Option<Snapshot> {
    if r.Some? then Some(r.value.traces) else None
  }

  /** The captured names of a recorded entry, if any. */
  function NamesIn(r: Option<Recorded>): Option<Names> {
    if r.Some? then Some(r.value.names) else None
  }

  /** StopWatchTimer: the bookkeeping of one watchdog, run sequentially. */
  class StopWatchTimer {
    const warnTime: int
    const errorTime: int
    const fatalTime: int

    /** When trace text was last rendered. */
    var lastLog: int

    /** Start time of each in-flight request, by thread. */
    var requestThreads: map<ThreadId, int>

    var warnStore: Store
    var errorStore: Store
    var fatalStore: Store

    /** The configured thresholds are in the expected order (not enforced by the source). */
    predicate ThresholdsOrdered() {
      0 <= warnTime <= errorTime <= fatalTime
    }

    /** No store outlives its request, and with ordered thresholds a thread escalates
        through every lower tier. */
    ghost predicate Valid()
      reads this
    {
      && warnStore.Keys <= requestThreads.Keys
      && errorStore.Keys <= requestThreads.Keys
      && fatalStore.Keys <= requestThreads.Keys
      && (ThresholdsOrdered() ==> fatalStore.Keys <= errorStore.Keys <= warnStore.Keys)
    }

    function TierStore(tier: Tier): Store
      reads this
    {
      match tier
      case Warn => warnStore
      case Error => errorStore
      case Fatal => fatalStore
    }

    /** The thresholds are the configured properties, `None` when a property is unset. */
    constructor (warn: Option<int>, error: Option<int>, fatal: Option<int>)
      ensures warnTime == warn.GetOr(DefaultWarnMillis) && errorTime == error.GetOr(DefaultErrorMillis)
      ensures fatalTime == fatal.GetOr(DefaultFatalMillis)
      ensures lastLog == 0 && requestThreads == map[]
      ensures warnStore == map[] && errorStore == map[] && fatalStore == map[]
      ensures Valid()
    {
      warnTime := warn.GetOr(DefaultWarnMillis);
      errorTime := error.GetOr(DefaultErrorMillis);
      fatalTime := fatal.GetOr(DefaultFatalMillis);
      lastLog := 0;
      requestThreads := map[];
      warnStore, errorStore, fatalStore := map[], map[], map[];
    }

    /** time(): the recorded start, 0 when none. */
    function Time(t: ThreadId): int
      reads this
    {
      if t in requestThreads then requestThreads[t] else 0
    }

    /** hasTimerStarted(): a non-zero start is recorded. */
    predicate HasTimerStarted(t: ThreadId)
      reads this
    {
      Time(t) != 0
    }

    /** The elapsed time reported at the end of a request: 0 without a start. */
    function RequestTime(t: ThreadId, now: int): (elapsed: int)
      reads this
      ensures !HasTimerStarted(t) <==> t !in requestThreads || requestThreads[t] == 0
      ensures !HasTimerStarted(t) ==> elapsed == 0
      ensures t in requestThreads && requestThreads[t] != 0 ==> elapsed == now - requestThreads[t]
    {
      if HasTimerStarted(t) then now - Time(t) else 0
    }

    /** The entry of the most severe tier holding the thread: fatal before error before warn. */
    function MostSevere(t: ThreadId): Option<Recorded>
      reads this
    {
      if t in fatalStore then Some(fatalStore[t])
      else if t in errorStore then Some(errorStore[t])
      else if t in warnStore then Some(warnStore[t])
      else None
    }

    /** The end handshake reports the entry of the highest-ranked tier that holds the
        thread, and nothing when no tier holds it. */
    lemma MostSevereIsHighestTier(t: ThreadId)
      ensures MostSevere(t).None? <==> forall tier :: t !in TierStore(tier)
      ensures MostSevere(t).Some? ==>
        exists tier ::
          && t in TierStore(tier)
          && MostSevere(t) == Some(TierStore(tier)[t])
          && forall higher :: Rank(higher) > Rank(tier) ==> t !in TierStore(higher)
    {
      if t in fatalStore {
        assert t in TierStore(Fatal);
      } else if t in errorStore {
        assert t in TierStore(Error);
      } else if t in warnStore {
        assert t in TierStore(Warn);
      } else {
        assert forall tier :: t !in TierStore(tier) by {
          forall tier ensures t !in TierStore(tier) {
            match tier
            case Warn =>
            case Error =>
            case Fatal =>
          }
        }
      }
    }

    /** The log level for a finished request: error above the fatal or error threshold,
        warn above the warn threshold, otherwise none. */
    function LevelFor(requestTime: int): (level: LogLevel)
    {
      if requestTime > fatalTime then ErrorLevel
      else if requestTime > errorTime then ErrorLevel
      else if requestTime > warnTime then WarnLevel
      else Silent
    }

    /** With ordered thresholds the fatal test adds nothing: the level is error exactly above
        the error threshold and warn exactly between the warn and error thresholds. The
        level never drops as the elapsed time grows. */
    lemma LevelForSpec(a: int, b: int)
      ensures ThresholdsOrdered() ==> (LevelFor(a) == ErrorLevel <==> a > errorTime)
      ensures ThresholdsOrdered() ==> (LevelFor(a) == WarnLevel <==> warnTime < a <= errorTime)
      ensures LevelFor(a) == Silent <==> a <= warnTime && a <= errorTime && a <= fatalTime
      ensures a <= b && LevelFor(a) == ErrorLevel ==> LevelFor(b) == ErrorLevel
      ensures a <= b && LevelFor(a) == WarnLevel ==> LevelFor(b) != Silent
    {
    }

    /** startTimer: records `now` for the thread unless a start is already recorded. */
    method StartTimer(t: ThreadId, now: int)
      requires Valid()
      modifies this
      ensures Valid()
      ensures old(HasTimerStarted(t)) ==> requestThreads == old(requestThreads)
      ensures !old(HasTimerStarted(t)) ==> requestThreads == old(requestThreads)[t := now]
      ensures lastLog == old(lastLog)
      ensures warnStore == old(warnStore) && errorStore == old(errorStore) && fatalStore == old(fatalStore)
    {
      if !HasTimerStarted(t) {
        requestThreads := requestThreads[t := now];
      }
    }

    /** Removes the thread from the three stores and the start-time registry. */
    method ClearThread(t: ThreadId)
      requires Valid()
      modifies this
      ensures Valid()
      ensures requestThreads == old(requestThreads) - {t}
      ensures warnStore == old(warnStore) - {t}
      ensures errorStore == old(errorStore) - {t}
      ensures fatalStore == old(fatalStore) - {t}
      ensures lastLog == old(lastLog)
    {
      fatalStore := fatalStore - {t};
      errorStore := errorStore - {t};
      warnStore := warnStore - {t};
      requestThreads := requestThreads - {t};
    }

    /** endTimer for the request running on `current`: measures the request, picks the most
        severe snapshot, clears every store for the thread, renders the trace at most once
        per window, and chooses the log level. The listener receives `requestTime`. */
    method EndTimer(current: ThreadRecord, now: int) returns (requestTime: int, trace: string, level: LogLevel)
      requires Valid()
      modifies this
      ensures Valid()
      ensures requestTime == old(RequestTime(current.id, now))
      ensures requestThreads == old(requestThreads) - {current.id}
      ensures warnStore == old(warnStore) - {current.id}
      ensures errorStore == old(errorStore) - {current.id}
      ensures fatalStore == old(fatalStore) - {current.id}
      ensures now - old(lastLog) > LogWindowMillis ==>
        lastLog == now && trace == Render(TracesOf(old(MostSevere(current.id))), NamesIn(old(MostSevere(current.id))), current)
      ensures now - old(lastLog) <= LogWindowMillis ==> lastLog == old(lastLog) && trace == SkippedTraces
      ensures level == LevelFor(requestTime)
    {
      var t := current.id;
      requestTime := 0;
      if HasTimerStarted(t) {
        requestTime := now - Time(t);
      }

      var traces: Option<Snapshot> := if t in fatalStore then Some(fatalStore[t].traces) else None;
      var names: Option<Names> := if t in fatalStore then Some(fatalStore[t].names) else None;
      if traces.None? {
        traces := if t in errorStore then Some(errorStore[t].traces) else None;
        names := if t in errorStore then Some(errorStore[t].names) else None;
      }
      if traces.None? {
        traces := if t in warnStore then Some(warnStore[t].traces) else None;
        names := if t in warnStore then Some(warnStore[t].names) else None;
      }
      assert traces == TracesOf(MostSevere(t)) && names == NamesIn(MostSevere(t));

      ClearThread(t);

      trace := SkippedTraces;
      if now - lastLog > LogWindowMillis {
        trace := StringFromTracesAndNames(traces, names, current);
        lastLog := now;
      }

      level := LevelFor(requestTime);
    }

    /** checkThreads: one watchdog pass over a copy of the start-time registry at `now`.
        `dump` is what the process-wide stack dump returns if the pass needs it, `nameOf`
        gives live thread names, `watchdog` is the scanning thread, and the two lock
        descriptions are attached to fatal diagnostics. The listener receives `deadlocks`
        when it is present. Every tier records the same dump and names, and the pass writes
        the three stores back once it has scanned every thread. */
    method CheckThreads(now: int, dump: Snapshot, nameOf: ThreadId -> string, watchdog: ThreadRecord,
                        ecInfo: string, oscInfo: string)
      returns (dumped: bool, newlyFatal: set<ThreadId>, deadlocks: Option<nat>, fatalLogs: map<ThreadId, FatalReport>)
      requires Valid()
      modifies this
      ensures Valid()
      ensures requestThreads == old(requestThreads) && lastLog == old(lastLog)
      ensures warnStore == Escalate(old(warnStore), Due(old(requestThreads), now, Half(warnTime)), Recorded(dump, NamesOf(dump.entries, nameOf)))
      ensures errorStore == Escalate(old(errorStore), Due(old(requestThreads), now, Half(errorTime)), Recorded(dump, NamesOf(dump.entries, nameOf)))
      ensures fatalStore == Escalate(old(fatalStore), Due(old(requestThreads), now, fatalTime), Recorded(dump, NamesOf(dump.entries, nameOf)))
      ensures newlyFatal == Fresh(old(fatalStore), Due(old(requestThreads), now, fatalTime))
      ensures dumped <==> (warnStore != old(warnStore) || errorStore != old(errorStore) || fatalStore != old(fatalStore))
      ensures deadlocks == if old(requestThreads) == map[] then None else Some(|newlyFatal|)
      ensures fatalLogs.Keys == newlyFatal
      ensures forall t :: t in fatalLogs ==> t in old(requestThreads) && fatalLogs[t].elapsed == now - old(requestThreads)[t]
      ensures forall t :: t in fatalLogs ==>
        fatalLogs[t].traces == Render(Some(dump), Some(NamesOf(dump.entries, nameOf)), watchdog)
        && fatalLogs[t].ecInfo == ecInfo && fatalLogs[t].oscInfo == oscInfo
    {
      var threads := requestThreads;
      var s0 := Stores(warnStore, errorStore, fatalStore);
      ghost var d := Dues(Due(threads, now, Half(warnTime)), Due(threads, now, Half(errorTime)), Due(threads, now, fatalTime));
      ghost var r := Recorded(dump, NamesOf(dump.entries, nameOf));
      ghost var report := Render(Some(dump), Some(NamesOf(dump.entries, nameOf)), watchdog);
      var stores, traces, count;
      stores, traces, newlyFatal, count, fatalLogs := ScanAll(threads, now, s0, dump, nameOf, watchdog, ecInfo, oscInfo, d, r, report);
      warnStore, errorStore, fatalStore := stores.warn, stores.error, stores.fatal;
      dumped := traces.Some?;
      deadlocks := if threads == map[] then None else Some(count);
      EscalatedValid(s0, d, threads, now, r);
    }

    /** The threads of the registry over each tier's limit at `now`. */
    function DuesAt(threads: map<ThreadId, int>, now: int): Dues {
      Dues(Due(threads, now, Half(warnTime)), Due(threads, now, Half(errorTime)), Due(threads, now, fatalTime))
    }

    /** The loop of checkThreads: every thread of the registry copy is scanned once, in an
        unspecified order, against the stores `s0`; the dump is taken at most once, on
        first need. */
    method ScanAll(threads: map<ThreadId, int>, now: int, s0: Stores, dump: Snapshot, nameOf: ThreadId -> string,
                   watchdog: ThreadRecord, ecInfo: string, oscInfo: string, ghost d: Dues, ghost r: Recorded,
                   ghost report: string)
      returns (stores: Stores, traces: Option<Snapshot>, newlyFatal: set<ThreadId>, count: nat, fatalLogs: map<ThreadId, FatalReport>)
      requires d == DuesAt(threads, now) && r == Recorded(dump, NamesOf(dump.entries, nameOf))
      requires report == Render(Some(dump), Some(r.names), watchdog)
      ensures stores == Stores(Escalate(s0.warn, d.warn, r), Escalate(s0.error, d.error, r), Escalate(s0.fatal, d.fatal, r))
      ensures traces.Some? <==> Fresh(s0.warn, d.warn) + Fresh(s0.error, d.error) + Fresh(s0.fatal, d.fatal) != {}
      ensures newlyFatal == Fresh(s0.fatal, d.fatal)
      ensures count == |newlyFatal|
      ensures fatalLogs.Keys == newlyFatal
      ensures forall u :: u in fatalLogs ==> u in threads && fatalLogs[u] == FatalReport(now - threads[u], report, ecInfo, oscInfo)
    {
      stores, newlyFatal, count, fatalLogs, traces := s0, {}, 0, map[], None;
      var remaining := threads.Keys;
      ScanStarts(s0, d, remaining, r);
      while remaining != {}
        invariant remaining <= threads.Keys
        invariant stores == Scanned(s0, d, remaining, r)
        invariant traces.Some? ==> traces.value == dump
        invariant traces.Some? <==> Touched(s0, d, remaining)
        invariant newlyFatal == Fresh(s0.fatal, d.fatal - remaining)
        invariant count == |newlyFatal|
        invariant fatalLogs.Keys == newlyFatal
        invariant forall u :: u in fatalLogs ==> u in threads && fatalLogs[u] == FatalReport(now - threads[u], report, ecInfo, oscInfo)
        decreases remaining
      {
        var t :| t in remaining;
        var fatalLog;
        stores, traces, fatalLog := ScanStep(threads, now, s0, dump, nameOf, watchdog, ecInfo, oscInfo, d, r, report, remaining, t, stores, traces);
        newlyFatal, count, fatalLogs := NoteFatal(s0.fatal, d.fatal, remaining, t, fatalLog, newlyFatal, count, fatalLogs, threads, now, report, ecInfo, oscInfo);
        remaining := remaining - {t};
      }
      ScanEnds(s0, d, r);
    }

    /** Scanning thread `t` of the pass extends every tier's escalation by `t`; the scan
        reports a diagnostic exactly when `t` newly turns fatal. */
    method ScanStep(threads: map<ThreadId, int>, now: int, s0: Stores, dump: Snapshot, nameOf: ThreadId -> string,
                    watchdog: ThreadRecord, ecInfo: string, oscInfo: string, ghost d: Dues, ghost r: Recorded,
                    ghost report: string, ghost remaining: set<ThreadId>, t: ThreadId, stores: Stores, traces: Option<Snapshot>)
      returns (stores': Stores, traces': Option<Snapshot>, fatalLog: Option<FatalReport>)
      requires d == DuesAt(threads, now) && r == Recorded(dump, NamesOf(dump.entries, nameOf))
      requires report == Render(Some(dump), Some(r.names), watchdog)
      requires t in remaining && remaining <= threads.Keys
      requires stores == Scanned(s0, d, remaining, r)
      requires traces.Some? ==> traces.value == dump
      requires traces.Some? <==> Touched(s0, d, remaining)
      ensures stores' == Scanned(s0, d, remaining - {t}, r)
      ensures traces'.Some? ==> traces'.value == dump
      ensures traces'.Some? <==> Touched(s0, d, remaining - {t})
      ensures fatalLog.Some? <==> t in Fresh(s0.fatal, d.fatal)
      ensures fatalLog.Some? ==> fatalLog.value == FatalReport(now - threads[t], report, ecInfo, oscInfo)
    {
      var time := now - threads[t];
      DueMember(threads, now, t, Half(warnTime));
      DueMember(threads, now, t, Half(errorTime));
      DueMember(threads, now, t, fatalTime);
      ScanExtends(s0, d, remaining, t, r);
      stores', traces', fatalLog := ScanThread(stores, t, time, traces, dump, nameOf, watchdog, report, ecInfo, oscInfo);
    }

    /** The fatal bookkeeping of the pass after thread `t`: a diagnostic adds `t` to the
        newly fatal threads, bumps the deadlock count and is logged. */
    static method NoteFatal(ghost fatal0: Store, ghost due: set<ThreadId>, ghost remaining: set<ThreadId>, t: ThreadId,
                            fatalLog: Option<FatalReport>, newlyFatal: set<ThreadId>, count: nat,
                            fatalLogs: map<ThreadId, FatalReport>, threads: map<ThreadId, int>, now: int,
                            ghost report: string, ecInfo: string, oscInfo: string)
      returns (newlyFatal': set<ThreadId>, count': nat, fatalLogs': map<ThreadId, FatalReport>)
      requires t in remaining && t in threads
      requires fatalLog.Some? <==> t in Fresh(fatal0, due)
      requires fatalLog.Some? ==> fatalLog.value == FatalReport(now - threads[t], report, ecInfo, oscInfo)
      requires newlyFatal == Fresh(fatal0, due - remaining) && count == |newlyFatal| && fatalLogs.Keys == newlyFatal
      requires forall u :: u in fatalLogs ==> u in threads && fatalLogs[u] == FatalReport(now - threads[u], report, ecInfo, oscInfo)
      ensures newlyFatal' == Fresh(fatal0, due - (remaining - {t}))
      ensures count' == |newlyFatal'|
      ensures fatalLogs'.Keys == newlyFatal'
      ensures forall u :: u in fatalLogs' ==> u in threads && fatalLogs'[u] == FatalReport(now - threads[u], report, ecInfo, oscInfo)
    {
      newlyFatal', count', fatalLogs' := newlyFatal, count, fatalLogs;
      if fatalLog.Some? {
        FatalNoted(fatal0, due, remaining, t, newlyFatal, count);
        LogsExtend(fatalLogs, newlyFatal, t, threads, now, report, ecInfo, oscInfo, fatalLog.value);
        fatalLogs' := fatalLogs[t := fatalLog.value];
        newlyFatal' := newlyFatal + {t};
        count' := count + 1;
      } else {
        FreshStep(fatal0, due, remaining, t);
      }
    }

    /** The body of the scan for one thread that has been running for `time`: each tier
        whose limit is exceeded and which holds nothing for the thread records the pass's
        dump, taken on first need, with the current thread names; a new fatal recording
        also yields the diagnostic text. */
    method ScanThread(stores: Stores, t: ThreadId, time: int, traces: Option<Snapshot>, dump: Snapshot,
                      nameOf: ThreadId -> string, watchdog: ThreadRecord, ghost report: string, ecInfo: string, oscInfo: string)
      returns (stores': Stores, traces': Option<Snapshot>, fatalLog: Option<FatalReport>)
      requires traces.Some? ==> traces.value == dump
      requires report == Render(Some(dump), Some(NamesOf(dump.entries, nameOf)), watchdog)
      ensures stores' == Stores(Record(stores.warn, t, time > Half(warnTime), Recorded(dump, NamesOf(dump.entries, nameOf))),
                                Record(stores.error, t, time > Half(errorTime), Recorded(dump, NamesOf(dump.entries, nameOf))),
                                Record(stores.fatal, t, time > fatalTime, Recorded(dump, NamesOf(dump.entries, nameOf))))
      ensures traces'.Some? ==> traces'.value == dump
      ensures traces'.Some? <==>
        (traces.Some? || (time > Half(warnTime) && t !in stores.warn)
         || (time > Half(errorTime) && t !in stores.error) || (time > fatalTime && t !in stores.fatal))
      ensures fatalLog.Some? <==> time > fatalTime && t !in stores.fatal
      ensures fatalLog.Some? ==> fatalLog.value == FatalReport(time, report, ecInfo, oscInfo)
    {
      var warn, error, fatal, names;
      warn, traces', names := RecordTier(stores.warn, t, time > Half(warnTime), traces, dump, nameOf);
      error, traces', names := RecordTier(stores.error, t, time > Half(errorTime), traces', dump, nameOf);
      fatal, traces', names := RecordTier(stores.fatal, t, time > fatalTime, traces', dump, nameOf);
      fatalLog := None;
      if time > fatalTime && t !in stores.fatal {
        var text := StringFromTracesAndNames(traces', Some(names), watchdog);
        fatalLog := Some(FatalReport(time, text, ecInfo, oscInfo));
      }
      stores' := Stores(warn, error, fatal);
    }

    /** One tier of the scan: when the thread is over the tier's limit and the tier holds
        nothing for it, the dump (taken now if not yet taken) and the current thread names
        are recorded for it. */
    static method RecordTier(store: Store, t: ThreadId, over: bool, traces: Option<Snapshot>, dump: Snapshot,
                             nameOf: ThreadId -> string)
      returns (store': Store, traces': Option<Snapshot>, names: Names)
      requires traces.Some? ==> traces.value == dump
      ensures store' == Record(store, t, over, Recorded(dump, NamesOf(dump.entries, nameOf)))
      ensures traces'.Some? <==> traces.Some? || (over && t !in store)
      ensures traces'.Some? ==> traces'.value == dump
      ensures over && t !in store ==> names == NamesOf(dump.entries, nameOf)
    {
      store', traces', names := store, traces, map[];
      if over && t !in store {
        if traces'.None? {
          traces' := Some(dump);
        }
        names := CurrentThreadNames(traces'.value.entries, nameOf);
        store' := store[t := Recorded(traces'.value, names)];
      }
    }

    /** The bookkeeping of a thread that newly became fatal keeps the pass's fatal set
        and its size in step with the threads scanned so far. */
    static lemma FatalNoted(fatal0: Store, due: set<ThreadId>, remaining: set<ThreadId>, t: ThreadId,
                            newlyFatal: set<ThreadId>, count: nat)
      requires t in remaining && t in Fresh(fatal0, due)
      requires newlyFatal == Fresh(fatal0, due - remaining) && count == |newlyFatal|
      ensures newlyFatal + {t} == Fresh(fatal0, due - (remaining - {t}))
      ensures count + 1 == |newlyFatal + {t}|
    {
      FreshStep(fatal0, due, remaining, t);
      GrowByOne(newlyFatal, t);
    }

    /** Adding the diagnostic of a newly fatal thread keeps every logged text the fatal
        message for its thread's elapsed time. */
    static lemma LogsExtend(logs: map<ThreadId, FatalReport>, newlyFatal: set<ThreadId>, t: ThreadId,
                            threads: map<ThreadId, int>, now: int, report: string, ecInfo: string, oscInfo: string, text: FatalReport)
      requires t in threads && logs.Keys == newlyFatal
      requires text == FatalReport(now - threads[t], report, ecInfo, oscInfo)
      requires forall u :: u in logs ==> u in threads && logs[u] == FatalReport(now - threads[u], report, ecInfo, oscInfo)
      ensures logs[t := text].Keys == newlyFatal + {t}
      ensures forall u :: u in logs[t := text] ==> u in threads && logs[t := text][u] == FatalReport(now - threads[u], report, ecInfo, oscInfo)
    {
      assert logs[t := text].Keys == logs.Keys + {t};
      forall u | u in logs[t := text]
        ensures u in threads && logs[t := text][u] == FatalReport(now - threads[u], report, ecInfo, oscInfo)
      {
        if u != t {
          assert u in logs;
        }
      }
    }

    /** The stores after a pass satisfy the object invariant. */
    lemma EscalatedValid(s0: Stores, d: Dues, threads: map<ThreadId, int>, now: int, r: Recorded)
      requires s0.warn.Keys <= threads.Keys && s0.error.Keys <= threads.Keys && s0.fatal.Keys <= threads.Keys
      requires ThresholdsOrdered() ==> s0.fatal.Keys <= s0.error.Keys <= s0.warn.Keys
      requires requestThreads == threads && d == DuesAt(threads, now)
      requires warnStore == Escalate(s0.warn, d.warn, r)
      requires errorStore == Escalate(s0.error, d.error, r)
      requires fatalStore == Escalate(s0.fatal, d.fatal, r)
      ensures Valid()
      ensures warnStore == s0.warn <==> Fresh(s0.warn, d.warn) == {}
      ensures errorStore == s0.error <==> Fresh(s0.error, d.error) == {}
      ensures fatalStore == s0.fatal <==> Fresh(s0.fatal, d.fatal) == {}
      ensures (warnStore != s0.warn || errorStore != s0.error || fatalStore != s0.fatal)
              <==> Fresh(s0.warn, d.warn) + Fresh(s0.error, d.error) + Fresh(s0.fatal, d.fatal) != {}
    {
      EscalateChanges(s0.warn, d.warn, r);
      EscalateChanges(s0.error, d.error, r);
      EscalateChanges(s0.fatal, d.fatal, r);
      EscalateKeepsExisting(s0.warn, d.warn, r);
      EscalateKeepsExisting(s0.error, d.error, r);
      EscalateKeepsExisting(s0.fatal, d.fatal, r);
      if ThresholdsOrdered() {
        DueNested(threads, now, warnTime, errorTime, fatalTime);
      }
    }
  }

  /** getAverageSessionMemory: the memory consumed since start-up and its share per session. */
  datatype SessionMemory = SessionMemory(total: int, perSession: int)

  type SessionId = nat

  /** The part of ERXStatisticsStore that keeps the list of live sessions. */
  class SessionRegistry {
    var sessions: seq<SessionId>

    constructor ()
      ensures sessions == []
    {
      sessions := [];
    }

    /** _applicationCreatedSession: appends the session. */
    method ApplicationCreatedSession(s: SessionId)
      modifies this
      ensures sessions == old(sessions) + [s]
    {
      sessions := sessions + [s];
    }

    /** _sessionTerminating: removes every occurrence of the session. */
    method SessionTerminating(s: SessionId)
      modifies this
      ensures sessions == ArrayUtilities.Without(old(sessions), s)
      ensures s !in sessions
    {
      sessions := ArrayUtilities.Without(sessions, s);
      ArrayUtilities.WithoutSpec(old(sessions), s);
    }

    /** Both figures are 0 without a start-up measurement or without sessions; otherwise the
        total is start-up free memory minus current free memory and the share is the total
        divided by the session count, truncated toward zero. */
    function AverageSessionMemory(startFree: Option<int>, currentFree: int): (r: SessionMemory)
      reads this
      ensures startFree.None? || |sessions| == 0 ==> r == SessionMemory(0, 0)
      ensures startFree.Some? && |sessions| > 0 ==>
        && r.total == startFree.value - currentFree
        && (r.total >= 0 ==> 0 <= r.total - r.perSession * |sessions| < |sessions|)
        && (r.total < 0 ==> -|sessions| < r.total - r.perSession * |sessions| <= 0)
    {
      if startFree.Some? && |sessions| > 0 then
        var total := startFree.value - currentFree;
        JavaInt.DivTruncates(total, |sessions|);
        SessionMemory(total, JavaInt.Div(total, |sessions|))
      else
        SessionMemory(0, 0)
    }
  }
}
