/**
 Accounting snapshots of one proxy job: how a later snapshot merges into the stored one, and
 what a job contributes to the daily rollups.  The zero time is never stored, because the entry
 points stamp every event.
 */
module JobSnapshots {
  import opened Basics

  const NANOSECONDS_PER_DAY: int := 86_400_000_000_000

  function Day(t: Instant): int {
    t / NANOSECONDS_PER_DAY
  }

  /** Printer states; only the five terminal ones and the missing one are told apart. */
  datatype State = Blank | Completed | Canceled | Aborted | Failed | Rejected | Other(name: string) {
    predicate Terminal() {
      Completed? || Canceled? || Aborted? || Failed? || Rejected?
    }
  }

  datatype Outcome = Unresolved | WasCompleted | WasCanceled | WasAborted | WasFailed | WasRejected | WasStopped

  datatype Measures = Measures(pages: Option<int>, estimated: Option<int>, impressions: Option<int>, sheets: Option<int>)

  datatype Settings = Settings(
    documentFormat: string, upstreamFormat: string, route: string,
    requestedColor: string, effectiveColor: string,
    requestedSides: string, effectiveSides: string,
    requestedMedia: string, effectiveMedia: string)

  datatype JobKey = JobKey(registry: string, id: int) {
    predicate Valid() {
      registry != "" && id >= 1
    }
  }

  datatype Snapshot = Snapshot(
    key: JobKey, queue: string, user: string,
    createdAt: Instant, updatedAt: Instant,
    processingAt: Option<Instant>, terminalAt: Option<Instant>,
    state: State, observed: State, reasons: string,
    accepted: bool, cancelAccepted: bool,
    documents: int, copies: int, payload: int,
    measures: Measures, settings: Settings)

  function PinText(prior: string, next: string): string {
    if prior != "" then prior else next
  }

  function PinInstant(prior: Option<Instant>, next: Option<Instant>): Option<Instant> {
    if prior.Some? then prior else next
  }

  function PinSettings(prior: Settings, next: Settings): Settings {
    Settings(
      PinText(prior.documentFormat, next.documentFormat), PinText(prior.upstreamFormat, next.upstreamFormat),
      PinText(prior.route, next.route),
      PinText(prior.requestedColor, next.requestedColor), PinText(prior.effectiveColor, next.effectiveColor),
      PinText(prior.requestedSides, next.requestedSides), PinText(prior.effectiveSides, next.effectiveSides),
      PinText(prior.requestedMedia, next.requestedMedia), PinText(prior.effectiveMedia, next.effectiveMedia))
  }

  /** An unknown or negative later measurement never erases an earlier one. */
  function MaxKnown(prior: Option<int>, next: Option<int>): Option<int> {
    if next.None? || next.value < 0 then prior
    else if prior.None? || next.value > prior.value then next
    else prior
  }

  function MergeMeasures(prior: Measures, next: Measures): Measures {
    Measures(MaxKnown(prior.pages, next.pages), MaxKnown(prior.estimated, next.estimated),
             MaxKnown(prior.impressions, next.impressions), MaxKnown(prior.sheets, next.sheets))
  }

  function MergeObserved(prior: State, next: State, newer: bool): State {
    if next.Blank? || prior.Terminal() || !newer then prior else next
  }

  /** Identity and submission data stay; only a snapshot at least as new moves the states. */
  function Merge(prior: Snapshot, next: Snapshot): Snapshot {
    var newer := next.updatedAt >= prior.updatedAt;
    Snapshot(
      prior.key, prior.queue, prior.user,
      prior.createdAt, if newer then next.updatedAt else prior.updatedAt,
      PinInstant(prior.processingAt, next.processingAt), PinInstant(prior.terminalAt, next.terminalAt),
      if newer && !next.state.Blank? then next.state else prior.state,
      MergeObserved(prior.observed, next.observed, newer),
      if newer && next.reasons != "" then next.reasons else prior.reasons,
      prior.accepted || next.accepted, prior.cancelAccepted || next.cancelAccepted,
      Max(prior.documents, next.documents), Max(prior.copies, next.copies), Max(prior.payload, next.payload),
      MergeMeasures(prior.measures, next.measures), PinSettings(prior.settings, next.settings))
  }

  function Known(m: Option<int>): Option<int> {
    if m.Some? && m.value < 0 then None else m
  }

  function Normalise(s: Snapshot): Snapshot {
    s.(measures := Measures(Known(s.measures.pages), Known(s.measures.estimated),
                            Known(s.measures.impressions), Known(s.measures.sheets)))
  }

  /** What is stored for a job once next has been seen. */
  function Next(prior: Option<Snapshot>, next: Snapshot): Snapshot {
    Normalise(if prior.Some? then Merge(prior.value, next) else next)
  }

  function OutcomeOf(s: Snapshot): Outcome {
    match s.observed
    case Completed => WasCompleted
    case Canceled => WasCanceled
    case Aborted => WasAborted
    case Failed => WasFailed
    case Rejected => WasRejected
    case _ =>
      if !s.state.Failed? && !s.state.Rejected? then Unresolved
      else if s.accepted then WasFailed else WasRejected
  }

  datatype Measure = Pages | Estimated | Impressions | Sheets

  datatype Phase = Processing | Completion

  /** The numeric columns of a rollup row, and one column for each combination of pinned settings. */
  datatype Column =
    | JobCount | AcceptedCount | CancelAcceptedCount | DocumentCount | Copies | PayloadBytes
    | OutcomeCount(outcome: Outcome)
    | Total(measure: Measure) | KnownCount(measure: Measure)
    | Observations(phase: Phase) | TotalTime(phase: Phase) | MaxTime(phase: Phase)
    | Pinned(settings: Settings)

  function MeasureOf(s: Snapshot, m: Measure): Option<int> {
    match m
    case Pages => s.measures.pages
    case Estimated => s.measures.estimated
    case Impressions => s.measures.impressions
    case Sheets => s.measures.sheets
  }

  /** Time from submission to a phase; nothing when the phase is unknown or precedes the submission. */
  function Elapsed(s: Snapshot, p: Phase): Option<int> {
    var at := if p.Processing? then s.processingAt else s.terminalAt;
    if at.Some? && at.value >= s.createdAt then Some(at.value - s.createdAt) else None
  }

  function Count(b: bool): int {
    if b then 1 else 0
  }

  /** What a job adds to a column of its row. */
  function Contribution(s: Snapshot, c: Column): int {
    match c
    case JobCount => 1
    case AcceptedCount => Count(s.accepted)
    case CancelAcceptedCount => Count(s.cancelAccepted)
    case DocumentCount => s.documents
    case Copies => s.copies
    case PayloadBytes => s.payload
    case OutcomeCount(o) => Count(OutcomeOf(s) == o)
    case Total(m) => if Known(MeasureOf(s, m)).Some? then MeasureOf(s, m).value else 0
    case KnownCount(m) => Count(Known(MeasureOf(s, m)).Some?)
    case Observations(p) => Count(Elapsed(s, p).Some?)
    case TotalTime(p) => if Elapsed(s, p).Some? then Elapsed(s, p).value else 0
    case MaxTime(p) => if Elapsed(s, p).Some? then Elapsed(s, p).value else 0
    case Pinned(settings) => Count(s.settings == settings)
  }

  /** A row of the rollups: the submission day of a queue and user. */
  datatype RowKey = RowKey(day: int, queue: string, user: string)

  function RowOf(s: Snapshot): RowKey {
    RowKey(Day(s.createdAt), s.queue, s.user)
  }

  /** A job never moves to another row, and its largest times never fall. */
  lemma NextKeepsRow(prior: Snapshot, next: Snapshot, c: Column)
    ensures RowOf(Next(Some(prior), next)) == RowOf(prior)
    ensures Next(Some(prior), next).key == prior.key
    ensures c.MaxTime? ==> 0 <= Contribution(prior, c) <= Contribution(Next(Some(prior), next), c)
  {
  }

  /** The outcome columns of one job sum to one job. */
  lemma OneOutcome(s: Snapshot)
    ensures Contribution(s, OutcomeCount(Unresolved)) + Contribution(s, OutcomeCount(WasCompleted))
          + Contribution(s, OutcomeCount(WasCanceled)) + Contribution(s, OutcomeCount(WasAborted))
          + Contribution(s, OutcomeCount(WasFailed)) + Contribution(s, OutcomeCount(WasRejected))
          + Contribution(s, OutcomeCount(WasStopped)) == Contribution(s, JobCount)
  {
  }

  /** A stored snapshot after all the later ones have been seen. */
  function MergeAll(s: Snapshot, rest: seq<Snapshot>): Snapshot {
    if rest == [] then s else Next(Some(MergeAll(s, rest[..|rest| - 1])), rest[|rest| - 1])
  }

  /** A printer-observed terminal state fixes the outcome, whatever snapshots follow. */
  lemma {:induction false} TerminalOutcomeStays(s: Snapshot, rest: seq<Snapshot>)
    requires s.observed.Terminal()
    ensures MergeAll(s, rest).observed == s.observed && OutcomeOf(MergeAll(s, rest)) == OutcomeOf(s)
  {
    if rest != [] {
      TerminalOutcomeStays(s, rest[..|rest| - 1]);
    }
  }

  // Replaying snapshots.

  predicate PinnedText(f: string, n: string) {
    n != "" ==> f != ""
  }

  predicate PinnedSettings(f: Settings, n: Settings) {
    && PinnedText(f.documentFormat, n.documentFormat) && PinnedText(f.upstreamFormat, n.upstreamFormat)
    && PinnedText(f.route, n.route)
    && PinnedText(f.requestedColor, n.requestedColor) && PinnedText(f.effectiveColor, n.effectiveColor)
    && PinnedText(f.requestedSides, n.requestedSides) && PinnedText(f.effectiveSides, n.effectiveSides)
    && PinnedText(f.requestedMedia, n.requestedMedia) && PinnedText(f.effectiveMedia, n.effectiveMedia)
  }

  predicate AtLeast(f: Option<int>, n: Option<int>) {
    n.None? || n.value < 0 || (f.Some? && f.value >= n.value)
  }

  predicate Nonnegative(m: Measures) {
    && Known(m.pages) == m.pages && Known(m.estimated) == m.estimated
    && Known(m.impressions) == m.impressions && Known(m.sheets) == m.sheets
  }

  /** n has nothing that would move a monotone or pinned field of f. */
  predicate Absorbs(f: Snapshot, n: Snapshot) {
    && n.updatedAt <= f.updatedAt
    && (n.processingAt.Some? ==> f.processingAt.Some?) && (n.terminalAt.Some? ==> f.terminalAt.Some?)
    && (n.accepted ==> f.accepted) && (n.cancelAccepted ==> f.cancelAccepted)
    && n.documents <= f.documents && n.copies <= f.copies && n.payload <= f.payload
    && AtLeast(f.measures.pages, n.measures.pages) && AtLeast(f.measures.estimated, n.measures.estimated)
    && AtLeast(f.measures.impressions, n.measures.impressions) && AtLeast(f.measures.sheets, n.measures.sheets)
    && PinnedSettings(f.settings, n.settings)
    && Nonnegative(f.measures)
  }

  lemma AbsorbsChain(f: Snapshot, g: Snapshot, n: Snapshot)
    requires Absorbs(f, g) && Absorbs(g, n)
    ensures Absorbs(f, n)
  {
  }

  lemma NextAbsorbs(prior: Option<Snapshot>, next: Snapshot)
    requires prior.Some? ==> Nonnegative(prior.value.measures)
    ensures Absorbs(Next(prior, next), next)
    ensures prior.Some? ==> Absorbs(Next(prior, next), prior.value)
    ensures Absorbs(Next(prior, next), Next(prior, next))
  {
  }

  /** The fields that Absorbs does not order: they follow the newest snapshots. */
  predicate SameButStates(f: Snapshot, s: Snapshot) {
    f == s.(state := f.state, observed := f.observed, reasons := f.reasons)
  }

  /**
   While a replay (b) chases the first pass (a) towards the final snapshot f, each state either
   already follows the first pass or still has its final value.
   */
  predicate Chases(a: Snapshot, b: Snapshot, f: Snapshot) {
    && SameButStates(b, f)
    && a.updatedAt <= f.updatedAt
    && (b.state == f.state || (a.updatedAt == f.updatedAt && b.state == a.state))
    && (b.observed == f.observed || (a.updatedAt == f.updatedAt && b.observed == a.observed))
    && (b.reasons == f.reasons || (a.updatedAt == f.updatedAt && b.reasons == a.reasons))
    && (a.observed.Terminal() ==> f.observed == a.observed)
  }

  lemma ChasesStep(a: Snapshot, b: Snapshot, f: Snapshot, n: Snapshot)
    requires Chases(a, b, f) && Absorbs(f, n) && n.key == f.key
    requires Next(Some(a), n).observed.Terminal() ==> f.observed == Next(Some(a), n).observed
    ensures Chases(Next(Some(a), n), Next(Some(b), n), f)
  {
  }

  lemma ChasesStart(b: Snapshot, f: Snapshot, n: Snapshot)
    requires Absorbs(f, n) && n.key == f.key && b == f
    requires n.observed.Terminal() ==> f.observed == n.observed
    ensures Chases(Next(None, n), Next(Some(b), n), f)
  {
  }
}
