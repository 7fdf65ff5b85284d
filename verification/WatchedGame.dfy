/**
 What one run of `watch_once` in tools/integrity/integrity_check.py does to one game, whatever the
 lobby, the checker and the delivery answer; and what that means over any number of runs.
 */
module WatchedGame {
  import opened Options

  type Game = string

  const MAX_ATTEMPTS: nat := 12
  const ROSTER_SECONDS := 86400.0
  const INPUT_GRACE_SECONDS := 3600.0

  datatype Stage = Check | Post

  datatype Job = Job(stage: Stage, attempts: nat, hasInput: bool)

  /** An unsupported game: its profile, and since when. */
  datatype Wait = Wait(profile: Option<string>, since: int)

  /** What the current run, or the last one, has asked of the outside for a game. */
  datatype Trace = Trace(fetched: bool, checked: bool, posted: bool)

  const UNTOUCHED := Trace(false, false, false)

  /** What the state holds about one game; done stands for the list in the file, or the set of a run. */
  datatype Entry = Entry(
    done: bool, givenUp: bool, expired: bool,
    pending: Option<Job>, unsupported: Option<Wait>, inputWait: Option<int>, trace: Trace)

  const UNKNOWN := Entry(false, false, false, None, None, None, UNTOUCHED)

  // ----- the answers of one run

  /** The log and the start record of a game: not both fetched, or the log's version if it has one. */
  datatype Fetch = FetchFails | Fetched(version: Option<nat>)

  /** The request for an INPUT sidecar. */
  datatype Sidecar = Found | NotFound | Unreachable

  /** The checker for a game's profile, if one is installed. */
  datatype Checker = NoChecker(profile: Option<string>) | HasChecker

  datatype World = World(
    now: real,
    incoming: Option<seq<Game>>,        // the games of --incoming; None asks the lobby
    listing: seq<Game>,                 // the lobby's finished games behind the cursor
    cursor: Option<string>,
    listedInput: set<Game>,             // those listed with a sidecar
    installed: Option<string> -> bool,  // whether a checker for the profile is among --peers
    fetch: Game -> Fetch,
    sidecar: Game -> Sidecar,
    checker: Game -> Checker,
    checks: Game -> bool,               // the check itself ends well
    url: bool,                          // findings are to be delivered
    delivers: Game -> bool)             // and are

  // ----- the steps of one run

  predicate Settled(e: Entry) {
    e.done || e.givenUp || e.expired
  }

  /** The run's set of done games is the union of the three lists. */
  function Opened(e: Entry): Entry {
    e.(done := Settled(e), trace := UNTOUCHED)
  }

  /** Saving takes the given-up and the expired out of the list of done games. */
  function Closed(e: Entry): Entry {
    e.(done := e.done && !e.givenUp && !e.expired)
  }

  function Expired(e: Entry, now: real): Entry {
    if e.unsupported.Some? && now - e.unsupported.value.since as real > ROSTER_SECONDS then
      e.(unsupported := None, expired := true, done := true)
    else e
  }

  /** The games of a run. */
  predicate Selected(e: Entry, w: World, g: Game) {
    match w.incoming
    case Some(games) => g in games
    case None =>
      || g in w.listing
      || e.pending.Some?
      || e.inputWait.Some?
      || (e.unsupported.Some? && w.installed(e.unsupported.value.profile))
  }

  /** A game fails its fetch, is left for a later run, or is due with or without its log. */
  datatype Outcome = Nothing | Failing(listed: bool) | Due(withLog: bool)

  predicate Listed(e: Entry, w: World, g: Game) {
    g in w.listedInput || (e.pending.Some? && e.pending.value.hasInput)
  }

  predicate AsksSidecar(listed: bool, version: Option<nat>) {
    listed || (version.Some? && version.value < 4)
  }

  function WaitingSince(e: Entry, now: real): int {
    if e.inputWait.Some? then e.inputWait.value else now.Floor
  }

  /** One turn of the fetch loop: the entry afterwards, and what becomes of the game. */
  function FetchStep(e: Entry, w: World, g: Game): (Entry, Outcome) {
    if e.pending.Some? && e.pending.value.stage == Post then (e, Due(false))
    else
      var listed := Listed(e, w, g);
      var e := e.(trace := e.trace.(fetched := true));
      match w.fetch(g)
      case FetchFails => (e, Failing(listed))
      case Fetched(version) =>
        if !AsksSidecar(listed, version) then (e.(inputWait := None), Due(true))
        else match w.sidecar(g)
          case Unreachable => (e, Failing(listed))
          case Found => (e.(inputWait := None), Due(true))
          case NotFound =>
            if listed then (e, Failing(listed))
            else if version != Some(2) then (e.(inputWait := None), Due(true))
            else if w.now - WaitingSince(e, w.now) as real < INPUT_GRACE_SECONDS then
              (e.(inputWait := Some(WaitingSince(e, w.now))), Nothing)
            else (e.(inputWait := None), Due(true))
  }

  function JobOf(e: Entry): Job {
    if e.pending.Some? then e.pending.value else Job(Check, 0, false)
  }

  /** `failed`: one attempt more, and the last one gives the game up. */
  function AfterFailure(e: Entry, p: Job): Entry {
    if p.attempts + 1 >= MAX_ATTEMPTS then e.(pending := None, givenUp := true)
    else e.(pending := Some(p.(attempts := p.attempts + 1)))
  }

  function AfterFailedFetch(e: Entry, listed: bool): Entry {
    AfterFailure(e, JobOf(e).(hasInput := listed || JobOf(e).hasInput))
  }

  /** One turn of the work loop: the entry afterwards, and whether the game failed. */
  function WorkStep(e: Entry, w: World, g: Game, withLog: bool): (Entry, bool) {
    var p := JobOf(e);
    if p.stage == Check && withLog then
      match w.checker(g)
      case NoChecker(profile) =>
        (if e.unsupported.Some? then e else e.(unsupported := Some(Wait(profile, w.now.Floor))), false)
      case HasChecker =>
        var e := e.(unsupported := None, trace := e.trace.(checked := true));
        if w.checks(g) then DeliverStep(e, w, g, Job(Post, 0, false)) else (AfterFailure(e, p), true)
    else DeliverStep(e, w, g, p)
  }

  function DeliverStep(e: Entry, w: World, g: Game, p: Job): (Entry, bool) {
    var e := if w.url then e.(trace := e.trace.(posted := true)) else e;
    if w.url && !w.delivers(g) then (AfterFailure(e, p), true)
    else (e.(pending := None, done := true), false)
  }

  function Start(e: Entry, w: World): Entry {
    Expired(Opened(e), w.now)
  }

  /** The entry when the fetches are through, and what becomes of the game in this run. */
  function FetchedEntry(e: Entry, w: World, g: Game): (Entry, Outcome) {
    if e.done || !Selected(e, w, g) then (e, Nothing)
    else if w.incoming.Some? then (e, Due(true))
    else FetchStep(e, w, g)
  }

  function Worked(e: Entry, o: Outcome, w: World, g: Game): (Entry, bool) {
    match o
    case Nothing => (e, false)
    case Failing(listed) => (AfterFailedFetch(e, listed), true)
    case Due(withLog) => WorkStep(e, w, g, withLog)
  }

  /** One run, for one game. */
  function Next(e: Entry, w: World, g: Game): Entry {
    var (f, o) := FetchedEntry(Start(e, w), w, g);
    Closed(Worked(f, o, w, g).0)
  }

  /** Whether the game counts among the failures of the run. */
  predicate Fails(e: Entry, w: World, g: Game) {
    var (f, o) := FetchedEntry(Start(e, w), w, g);
    Worked(f, o, w, g).1
  }

  // ----- one run

  /** A settled game stays settled, and is left alone. */
  lemma SettledStays(e: Entry, w: World, g: Game)
    requires Settled(e)
    ensures Settled(Next(e, w, g)) && !Fails(e, w, g)
    ensures Next(e, w, g).trace == UNTOUCHED
  {
  }

  /** The state knows of the game. */
  predicate Known(e: Entry) {
    Settled(e) || e.pending.Some? || e.unsupported.Some? || e.inputWait.Some?
  }

  lemma KnownStays(e: Entry, w: World, g: Game)
    requires Known(e) || Selected(Start(e, w), w, g)
    ensures Known(Next(e, w, g))
  {
  }

  /** Attempts stay below the bound. */
  predicate Sound(e: Entry) {
    e.pending.Some? ==> e.pending.value.attempts < MAX_ATTEMPTS
  }

  /** How often the game can still fail: up to 12 times before its check is through, up to 12 times after. */
  function Left(e: Entry): nat
    requires Sound(e)
  {
    if Settled(e) then 0
    else if JobOf(e).stage == Post then MAX_ATTEMPTS - JobOf(e).attempts
    else 2 * MAX_ATTEMPTS - 1 - JobOf(e).attempts
  }

  /** A job that fails. */
  lemma FailedJobUsesUp(e: Entry, p: Job)
    requires Sound(e) && !Settled(e) && p.attempts < MAX_ATTEMPTS
    requires JobOf(e).stage == Post ==> p.stage == Post && p.attempts == JobOf(e).attempts
    requires JobOf(e).stage == p.stage ==> p.attempts == JobOf(e).attempts
    ensures Sound(AfterFailure(e, p)) && Left(AfterFailure(e, p)) < Left(e)
  {
  }

  lemma DeliveryUsesUp(e: Entry, w: World, g: Game, p: Job)
    requires Sound(e) && !Settled(e) && p.attempts < MAX_ATTEMPTS
    requires JobOf(e).stage == Post ==> p.stage == Post && p.attempts == JobOf(e).attempts
    requires JobOf(e).stage == p.stage ==> p.attempts == JobOf(e).attempts
    ensures var (f, failed) := DeliverStep(e, w, g, p);
            Sound(f) && Left(f) + (if failed then 1 else 0) <= Left(e)
  {
    FailedJobUsesUp(if w.url then e.(trace := e.trace.(posted := true)) else e, p);
  }

  lemma WorkUsesUp(e: Entry, w: World, g: Game, withLog: bool)
    requires Sound(e) && !Settled(e)
    ensures var (f, failed) := WorkStep(e, w, g, withLog);
            Sound(f) && Left(f) + (if failed then 1 else 0) <= Left(e)
  {
    var p := JobOf(e);
    if p.stage == Check && withLog {
      if w.checker(g).HasChecker? {
        var e := e.(unsupported := None, trace := e.trace.(checked := true));
        if w.checks(g) {
          DeliveryUsesUp(e, w, g, Job(Post, 0, false));
        } else {
          FailedJobUsesUp(e, p);
        }
      }
    } else {
      DeliveryUsesUp(e, w, g, p);
    }
  }

  /** Before the work nothing is used up and nothing given back. */
  lemma FetchUsesUpNothing(e: Entry, w: World, g: Game)
    requires Sound(e)
    ensures var (f, o) := FetchedEntry(Start(e, w), w, g);
            Sound(f) && Left(f) <= Left(e) && (o != Nothing ==> !f.done) && Left(Closed(f)) == Left(f)
    ensures Settled(Start(e, w)) == Start(e, w).done
    ensures var (f, o) := FetchedEntry(Start(e, w), w, g); Settled(f) == f.done
  {
  }

  lemma WorkedUsesUp(f: Entry, o: Outcome, w: World, g: Game)
    requires Sound(f) && (o != Nothing ==> !Settled(f))
    ensures var (v, failed) := Worked(f, o, w, g);
            Sound(v) && Left(v) + (if failed then 1 else 0) <= Left(f)
  {
    match o
    case Nothing =>
    case Failing(listed) => FailedJobUsesUp(f, JobOf(f).(hasInput := listed || JobOf(f).hasInput));
    case Due(withLog) => WorkUsesUp(f, w, g, withLog);
  }

  /** Every failure uses up one; nothing gives any back. */
  lemma FailureUsesUp(e: Entry, w: World, g: Game)
    requires Sound(e)
    ensures Sound(Next(e, w, g))
    ensures Left(Next(e, w, g)) + (if Fails(e, w, g) then 1 else 0) <= Left(e)
  {
    FetchUsesUpNothing(e, w, g);
    var (f, o) := FetchedEntry(Start(e, w), w, g);
    WorkedUsesUp(f, o, w, g);
    SavingKeepsLeft(Worked(f, o, w, g).0);
  }

  lemma SavingKeepsLeft(e: Entry)
    requires Sound(e)
    ensures Sound(Closed(e)) && Left(Closed(e)) == Left(e)
  {
  }

  predicate IsCheckedOff(e: Entry) {
    Settled(e) || (e.pending.Some? && e.pending.value.stage == Post)
  }

  /** A check that ends well is the game's last, and its log is not fetched again. */
  lemma CheckedOffStays(e: Entry, w: World, g: Game)
    requires IsCheckedOff(e)
    ensures IsCheckedOff(Next(e, w, g)) && !Next(e, w, g).trace.checked && !Next(e, w, g).trace.fetched
  {
  }

  lemma GoodCheckIsLast(e: Entry, w: World, g: Game)
    requires Next(e, w, g).trace.checked && w.checks(g)
    ensures IsCheckedOff(Next(e, w, g))
  {
  }

  /** No pending game is passed over by a run that asks the lobby. */
  lemma PendingIsTried(e: Entry, w: World, g: Game)
    requires !Settled(e) && e.pending.Some? && w.incoming.None?
    ensures Settled(Next(e, w, g)) || Next(e, w, g).trace.fetched || Next(e, w, g).trace.posted
  {
  }

  /** The wait for a checker ends with the lobby's roster. */
  lemma UnsupportedExpires(e: Entry, w: World, g: Game)
    requires e.unsupported.Some? && w.now - e.unsupported.value.since as real > ROSTER_SECONDS
    ensures Settled(Next(e, w, g)) && Next(e, w, g).expired
  {
  }

  /** The wait for a sidecar ends with the grace: then the game fails, is settled, unsupported or delivered. */
  lemma InputWaitEnds(e: Entry, w: World, g: Game)
    requires !Settled(e) && w.incoming.None? && e.inputWait.Some?
    requires w.now - e.inputWait.value as real >= INPUT_GRACE_SECONDS
    ensures Settled(Next(e, w, g)) || Fails(e, w, g) || Next(e, w, g).inputWait.None?
  {
  }

  // ----- what a run does, without its steps

  predicate ChecksWell(e: Entry, w: World, g: Game) {
    Next(e, w, g).trace.checked && w.checks(g)
  }

  /** The job that a run works on: the pending one, a new one, or the delivery that a good check leads to. */
  function TriedStage(e: Entry, w: World, g: Game): Stage {
    if ChecksWell(e, w, g) || (e.pending.Some? && e.pending.value.stage == Post) then Post else Check
  }

  function TriedAttempts(e: Entry, w: World, g: Game): nat {
    if ChecksWell(e, w, g) || e.pending.None? then 0 else e.pending.value.attempts
  }

  /** A failed run counts one attempt of its job; the twelfth gives the game up, before that it stays pending. */
  lemma FailureIsCounted(e: Entry, w: World, g: Game)
    requires Fails(e, w, g)
    ensures var f, n := Next(e, w, g), TriedAttempts(e, w, g) + 1;
            if n < 12 then
              !Settled(f) && f.pending.Some? && f.pending.value.stage == TriedStage(e, w, g)
                && f.pending.value.attempts == n
            else f.givenUp && f.pending.None? && !f.done && !f.expired
  {
  }

  /** A run without a failure settles the game or leaves its job as it is; it is not given up. */
  lemma NoFailureKeepsJob(e: Entry, w: World, g: Game)
    requires !Fails(e, w, g)
    ensures var f := Next(e, w, g);
            && (f.givenUp <==> e.givenUp)
            && (!f.done ==> f.pending == e.pending)
  {
  }

  /** A game is done by a run exactly when its delivery was due, after a good check or before it, and came through. */
  lemma DoneIff(e: Entry, w: World, g: Game)
    requires !Settled(e)
    ensures var f := Next(e, w, g);
            f.done <==> !f.expired && !Fails(e, w, g) && TriedStage(e, w, g) == Post
                        && (ChecksWell(e, w, g) || Selected(Start(e, w), w, g))
  {
  }

  /** The lobby promises a sidecar. */
  predicate IsPromised(e: Entry, w: World, g: Game) {
    g in w.listedInput || (e.pending.Some? && e.pending.value.hasInput)
  }

  /** A run that asks the lobby takes up the game, and its log is not yet checked. */
  predicate IsFetched(e: Entry, w: World, g: Game) {
    && !Settled(e) && w.incoming.None?
    && (e.unsupported.Some? ==> w.now - e.unsupported.value.since as real <= 86400.0)
    && (e.pending.Some? ==> e.pending.value.stage == Check)
    && (g in w.listing || e.pending.Some? || e.inputWait.Some?
        || (e.unsupported.Some? && w.installed(e.unsupported.value.profile)))
  }

  /** The log comes before the checker. */
  predicate GoesToChecker(e: Entry, w: World, g: Game) {
    var f := Next(e, w, g);
    && f.trace.fetched && f.inputWait == None
    && match w.checker(g)
       case NoChecker(profile) =>
         && !Fails(e, w, g) && !f.trace.checked && f.pending == e.pending
         && f.unsupported == Some(if e.unsupported.Some? then e.unsupported.value else Wait(profile, w.now.Floor))
       case HasChecker =>
         && f.trace.checked && f.unsupported == None
         && (Fails(e, w, g) <==> !w.checks(g) || (w.url && !w.delivers(g)))
         && (f.trace.posted <==> w.checks(g) && w.url)
  }

  predicate FailsToFetch(e: Entry, w: World, g: Game) {
    var f := Next(e, w, g);
    && Fails(e, w, g) && !f.trace.checked && f.inputWait == e.inputWait
    && (f.pending.Some? ==> f.pending.value.hasInput == IsPromised(e, w, g))
  }

  predicate WaitsForInput(e: Entry, w: World, g: Game, since: int) {
    var f := Next(e, w, g);
    !Fails(e, w, g) && !f.trace.checked && f.pending == e.pending && f.inputWait == Some(since) && !Settled(f)
  }

  /** The entry when its log has been asked for. */
  function Asked(e: Entry): Entry {
    e.(done := false, trace := Trace(true, false, false))
  }

  lemma StartOfFetched(e: Entry, w: World, g: Game)
    requires IsFetched(e, w, g)
    ensures Start(e, w) == e.(done := false, trace := UNTOUCHED)
    ensures FetchedEntry(Start(e, w), w, g) == FetchStep(Start(e, w), w, g)
    ensures Listed(Start(e, w), w, g) == IsPromised(e, w, g) && WaitingSince(Asked(e), w.now) == WaitingSince(e, w.now)
  {
  }

  lemma ReadyGoes(e: Entry, w: World, g: Game)
    requires IsFetched(e, w, g) && FetchedEntry(Start(e, w), w, g) == (Asked(e).(inputWait := None), Due(true))
    ensures GoesToChecker(e, w, g)
  {
    hide FetchedEntry, Start;
  }

  lemma FailingFails(e: Entry, w: World, g: Game)
    requires IsFetched(e, w, g) && FetchedEntry(Start(e, w), w, g) == (Asked(e), Failing(IsPromised(e, w, g)))
    ensures FailsToFetch(e, w, g)
  {
    hide FetchedEntry, Start;
  }

  lemma WaitingWaits(e: Entry, w: World, g: Game, since: int)
    requires IsFetched(e, w, g) && FetchedEntry(Start(e, w), w, g) == (Asked(e).(inputWait := Some(since)), Nothing)
    ensures WaitsForInput(e, w, g, since)
  {
    hide FetchedEntry, Start;
  }

  /**
   What the answers make of a run. A log that does not come fails it. A promised sidecar, or one of a log
   below version 4, is asked for; it fails the run when it does not answer, or is promised and not there.
   Without it a log of version 2 waits for an hour from its first run. All other logs go to the checker.
   */
  lemma FetchDecides(e: Entry, w: World, g: Game)
    requires IsFetched(e, w, g)
    ensures match w.fetch(g)
            case FetchFails => FailsToFetch(e, w, g)
            case Fetched(version) =>
              var since := if e.inputWait.Some? then e.inputWait.value else w.now.Floor;
              if !IsPromised(e, w, g) && !(version.Some? && version.value <= 3) then GoesToChecker(e, w, g)
              else match w.sidecar(g)
                case Unreachable => FailsToFetch(e, w, g)
                case Found => GoesToChecker(e, w, g)
                case NotFound =>
                  if IsPromised(e, w, g) then FailsToFetch(e, w, g)
                  else if version == Some(2) && w.now - since as real < 3600.0 then WaitsForInput(e, w, g, since)
                  else GoesToChecker(e, w, g)
  {
    hide GoesToChecker, FailsToFetch, WaitsForInput;
    StartOfFetched(e, w, g);
    var (f, o) := FetchStep(Start(e, w), w, g);
    match o
    case Due(_) => ReadyGoes(e, w, g);
    case Failing(_) => FailingFails(e, w, g);
    case Nothing => WaitingWaits(e, w, g, WaitingSince(e, w.now));
  }

  // ----- any number of runs

  /** The game's entry after the runs. */
  ghost function After(e: Entry, ws: seq<World>, g: Game): Entry {
    if ws == [] then e else Next(After(e, ws[..|ws| - 1], g), ws[|ws| - 1], g)
  }

  ghost function Failures(e: Entry, ws: seq<World>, g: Game): nat {
    if ws == [] then 0
    else Failures(e, ws[..|ws| - 1], g) + (if Fails(After(e, ws[..|ws| - 1], g), ws[|ws| - 1], g) then 1 else 0)
  }

  /** Once settled, a game is never fetched, checked or posted again, whatever runs follow. */
  lemma {:induction false} SettledForGood(e: Entry, ws: seq<World>, g: Game, w: World)
    requires Settled(e)
    ensures Settled(After(e, ws, g))
    ensures Next(After(e, ws, g), w, g).trace == UNTOUCHED
  {
    if ws != [] {
      SettledForGood(e, ws[..|ws| - 1], g, w);
      SettledStays(After(e, ws[..|ws| - 1], g), ws[|ws| - 1], g);
    }
    SettledStays(After(e, ws, g), w, g);
  }

  /** Once listed, a game is accounted for after every later run. */
  lemma {:induction false} KnownForGood(e: Entry, w: World, ws: seq<World>, g: Game)
    requires w.incoming.None? && g in w.listing
    ensures Known(After(Next(e, w, g), ws, g))
  {
    if ws == [] {
      KnownStays(e, w, g);
    } else {
      KnownForGood(e, w, ws[..|ws| - 1], g);
      KnownStays(After(Next(e, w, g), ws[..|ws| - 1], g), ws[|ws| - 1], g);
    }
  }

  /** Attempts stay below 12 in every run, and a game fails on 23 runs at most before it is settled. */
  lemma {:induction false} FailuresAreBounded(e: Entry, ws: seq<World>, g: Game)
    requires Sound(e)
    ensures Sound(After(e, ws, g))
    ensures Failures(e, ws, g) + Left(After(e, ws, g)) <= Left(e) <= 23
  {
    if ws != [] {
      FailuresAreBounded(e, ws[..|ws| - 1], g);
      FailureUsesUp(After(e, ws[..|ws| - 1], g), ws[|ws| - 1], g);
    }
  }

  /** So 23 failures settle it. */
  lemma EnoughFailuresSettle(ws: seq<World>, g: Game)
    requires Failures(UNKNOWN, ws, g) >= 23
    ensures Settled(After(UNKNOWN, ws, g))
  {
    FailuresAreBounded(UNKNOWN, ws, g);
  }

  /** After a check that ended well no later run checks the game, or fetches its log. */
  lemma {:induction false} CheckedOnce(e: Entry, w: World, ws: seq<World>, v: World, g: Game)
    requires Next(e, w, g).trace.checked && w.checks(g)
    ensures var f := After(Next(e, w, g), ws, g);
            IsCheckedOff(f) && !Next(f, v, g).trace.checked && !Next(f, v, g).trace.fetched
  {
    if ws == [] {
      GoodCheckIsLast(e, w, g);
    } else {
      var last := ws[|ws| - 1];
      CheckedOnce(e, w, ws[..|ws| - 1], last, g);
      CheckedOffStays(After(Next(e, w, g), ws[..|ws| - 1], g), last, g);
    }
    CheckedOffStays(After(Next(e, w, g), ws, g), v, g);
  }

  /** No check of the game ends well in any of the runs. */
  ghost predicate NeverChecksWell(e: Entry, ws: seq<World>, g: Game) {
    forall k :: 0 <= k < |ws| ==> !ChecksWell(After(e, ws[..k], g), ws[k], g)
  }

  /**
   A new game whose fetch or check only ever fails is given up by exactly the twelfth failure; before that
   it is pending with as many attempts as failures.
   */
  lemma {:induction false} TwelveFailuresGiveUp(ws: seq<World>, g: Game)
    requires NeverChecksWell(UNKNOWN, ws, g)
    ensures var e, n := After(UNKNOWN, ws, g), Failures(UNKNOWN, ws, g);
            && n <= 12 && !e.done && (e.givenUp <==> n == 12)
            && (n == 0 ==> e.pending == None)
            && (0 < n < 12 ==> e.pending.Some? && e.pending.value.stage == Check && e.pending.value.attempts == n)
  {
    if ws != [] {
      var z := |ws| - 1;
      var front, w := ws[..z], ws[z];
      assert forall k :: 0 <= k < z ==> ws[..k] == front[..k];
      TwelveFailuresGiveUp(front, g);
      var e := After(UNKNOWN, front, g);
      assert !ChecksWell(e, w, g);
      if Settled(e) {
        SettledStays(e, w, g);
        SettledKeeps(e, w, g);
      } else if Fails(e, w, g) {
        FailureIsCounted(e, w, g);
      } else {
        NoFailureKeepsJob(e, w, g);
        DoneIff(e, w, g);
      }
    }
  }

  lemma SettledKeeps(e: Entry, w: World, g: Game)
    requires Settled(e) && !e.done
    ensures var f := Next(e, w, g); !f.done && f.givenUp == e.givenUp && f.pending == e.pending
  {
  }
}
