/**
 `watch_once` of tools/integrity/integrity_check.py with its loops over the state: every game goes
 through the run on its own, as WatchedGame says.
 */
module WatchLoop {
  import opened Options
  import opened WatchedGame
  import opened Sorting

  /** The state as a value. */
  datatype State = State(
    done: set<Game>, givenUp: set<Game>, expired: set<Game>,
    pending: map<Game, Job>, unsupported: map<Game, Wait>, inputWait: map<Game, int>,
    fetched: set<Game>, checked: set<Game>, posted: set<Game>)

  ghost function At(s: State, g: Game): Entry {
    Entry(g in s.done, g in s.givenUp, g in s.expired, Get(s.pending, g), Get(s.unsupported, g), Get(s.inputWait, g),
          Trace(g in s.fetched, g in s.checked, g in s.posted))
  }

  /** Only this game's entry has changed. */
  ghost predicate Updates(t: State, s: State, g: Game, e: Entry) {
    At(t, g) == e && forall h :: h != g ==> At(t, h) == At(s, h)
  }

  /** No game is in two pairs. */
  ghost predicate DistinctPairs(ps: seq<(Game, bool)>) {
    forall i, j :: 0 <= i < j < |ps| ==> ps[i].0 != ps[j].0
  }

  ghost predicate Mentions(ps: seq<(Game, bool)>, g: Game) {
    (g, true) in ps || (g, false) in ps
  }

  // ----- what the loops have reached

  ghost predicate ExpiredBut(t: State, s: State, todo: set<Game>, now: real) {
    forall g :: At(t, g) == (if g in todo then At(s, g) else Expired(At(s, g), now))
  }

  /** The games of the list have been through the fetch loop. */
  ghost predicate FetchedUpTo(t: State, s: State, gs: seq<Game>, w: World) {
    forall g :: At(t, g) == (if g in gs && !At(s, g).done then FetchStep(At(s, g), w, g).0 else At(s, g))
  }

  ghost function OutcomeIn(s: State, w: World, g: Game): Outcome {
    if At(s, g).done then Nothing else FetchStep(At(s, g), w, g).1
  }

  /** The list holds, once, each game of gs that has failed or is due. */
  ghost predicate Lists(s: State, gs: seq<Game>, w: World, due: bool, ps: seq<(Game, bool)>) {
    && DistinctPairs(ps)
    && (forall p :: p in ps <==> p.0 in gs && IsListedAs(s, w, due, p))
  }

  ghost predicate IsListedAs(s: State, w: World, due: bool, p: (Game, bool)) {
    OutcomeIn(s, w, p.0) == if due then Due(p.1) else Failing(p.1)
  }

  ghost predicate SortedOut(s: State, gs: seq<Game>, w: World, failed: seq<(Game, bool)>, work: seq<(Game, bool)>) {
    Lists(s, gs, w, false, failed) && Lists(s, gs, w, true, work)
  }

  ghost predicate FailedUpTo(t: State, s: State, ps: seq<(Game, bool)>) {
    && (forall p :: p in ps ==> At(t, p.0) == AfterFailedFetch(At(s, p.0), p.1))
    && (forall g :: !Mentions(ps, g) ==> At(t, g) == At(s, g))
  }

  ghost predicate WorkedUpTo(t: State, s: State, ps: seq<(Game, bool)>, w: World) {
    && (forall p :: p in ps ==> At(t, p.0) == WorkStep(At(s, p.0), w, p.0, p.1).0)
    && (forall g :: !Mentions(ps, g) ==> At(t, g) == At(s, g))
  }

  /** Some of the games on the list failed in the work loop. */
  ghost predicate SomeFailed(s: State, ps: seq<(Game, bool)>, w: World) {
    exists p :: p in ps && WorkFails(s, w, p)
  }

  ghost predicate WorkFails(s: State, w: World, p: (Game, bool)) {
    WorkStep(At(s, p.0), w, p.0, p.1).1
  }

  /** What becomes of the game in the run, from the state behind the expiry. */
  ghost function Fate(s: State, w: World, g: Game): Outcome {
    FetchedEntry(At(s, g), w, g).1
  }

  /** The list holds, once, every game that has failed or is due in this run. */
  ghost predicate ListsAll(s: State, w: World, due: bool, ps: seq<(Game, bool)>) {
    && DistinctPairs(ps)
    && (forall p :: p in ps <==> Fate(s, w, p.0) == if due then Due(p.1) else Failing(p.1))
  }

  /** Everything is fetched, and the two lists are complete. */
  ghost predicate Ready(t: State, s: State, w: World, failed: seq<(Game, bool)>, work: seq<(Game, bool)>) {
    && (forall g :: At(t, g) == FetchedEntry(At(s, g), w, g).0)
    && ListsAll(s, w, false, failed)
    && ListsAll(s, w, true, work)
  }

  class Watch {
    var saved: set<Game>  // the list in the state file
    var done: set<Game>   // the set of the run
    var cursor: Option<string>
    var pending: map<Game, Job>
    var givenUp: set<Game>
    var unsupported: map<Game, Wait>
    var expired: set<Game>
    var inputWait: map<Game, int>

    /** The games that the run has fetched, checked and posted. */
    ghost var fetched: set<Game>
    ghost var checked: set<Game>
    ghost var posted: set<Game>

    /** No state file: nothing is known of any game. */
    constructor ()
      ensures forall g :: Stored(g) == UNKNOWN
      ensures cursor == None
    {
      saved, done, cursor := {}, {}, None;
      pending, givenUp, unsupported, expired, inputWait := map[], {}, map[], {}, map[];
      fetched, checked, posted := {}, {}, {};
    }

    /** The state in the file, and the state of a run. */
    ghost function Stored(g: Game): Entry
      reads this
    {
      At(State(saved, givenUp, expired, pending, unsupported, inputWait, fetched, checked, posted), g)
    }

    ghost function Live(): State
      reads this
    {
      State(done, givenUp, expired, pending, unsupported, inputWait, fetched, checked, posted)
    }

    method Save()
      modifies this`saved
      ensures forall g :: Stored(g) == Closed(At(Live(), g))
    {
      saved := done - givenUp - expired;
    }

    /** The inner `failed`. */
    method Failed(g: Game, p: Job)
      modifies this`pending, this`givenUp
      ensures Updates(Live(), old(Live()), g, AfterFailure(old(At(Live(), g)), p))
    {
      var attempts := p.attempts + 1;
      if attempts >= MAX_ATTEMPTS {
        pending := pending - {g};
        givenUp := givenUp + {g};
      } else {
        pending := pending[g := p.(attempts := attempts)];
      }
    }

    /** The loop over the unsupported games. */
    method Expire(now: real)
      modifies this`done, this`unsupported, this`expired
      ensures ExpiredBut(Live(), old(Live()), {}, now)
    {
      ghost var s := Live();
      var todo := unsupported.Keys;
      while todo != {}
        invariant todo <= unsupported.Keys
        invariant ExpiredBut(Live(), s, todo, now)
        decreases |todo|
      {
        var g :| g in todo;
        ghost var u := Live();
        ExpireOne(g, now);
        ExpireStep(Live(), u, s, todo, g, now);
        todo := todo - {g};
      }
    }

    method ExpireOne(g: Game, now: real)
      requires g in unsupported
      modifies this`done, this`unsupported, this`expired
      ensures Updates(Live(), old(Live()), g, Expired(old(At(Live(), g)), now))
      ensures old(unsupported).Keys - {g} <= unsupported.Keys
    {
      if now - unsupported[g].since as real > ROSTER_SECONDS {
        unsupported := unsupported - {g};
        expired := expired + {g};
        done := done + {g};
      }
    }

    /** One turn of the fetch loop. */
    method FetchOne(w: World, g: Game) returns (o: Outcome)
      requires g !in done && w.incoming.None?
      modifies this`inputWait, this`fetched
      ensures o == FetchStep(old(At(Live(), g)), w, g).1
      ensures Updates(Live(), old(Live()), g, FetchStep(old(At(Live(), g)), w, g).0)
    {
      if g in pending && pending[g].stage == Post {
        return Due(false);
      }
      var listed := g in w.listedInput || (g in pending && pending[g].hasInput);
      fetched := fetched + {g};
      var answer := w.fetch(g);
      if answer.FetchFails? {
        return Failing(listed);
      }
      var version := answer.version;
      if listed || (version.Some? && version.value < 4) {
        var side := w.sidecar(g);
        if side == Unreachable || (side == NotFound && listed) {
          return Failing(listed);
        }
        if side == NotFound && version == Some(2) {
          if g !in inputWait {
            inputWait := inputWait[g := w.now.Floor];
          }
          if w.now - inputWait[g] as real < INPUT_GRACE_SECONDS {
            return Nothing;
          }
        }
      }
      inputWait := inputWait - {g};
      return Due(true);
    }

    /** One turn of the work loop. */
    method WorkOne(w: World, g: Game, withLog: bool) returns (failed: bool)
      modifies this
      ensures cursor == old(cursor)
      ensures failed == WorkStep(old(At(Live(), g)), w, g, withLog).1
      ensures Updates(Live(), old(Live()), g, WorkStep(old(At(Live(), g)), w, g, withLog).0)
    {
      var p := if g in pending then pending[g] else Job(Check, 0, false);
      if p.stage == Check && withLog {
        var checker := w.checker(g);
        if checker.NoChecker? {
          Park(g, Wait(checker.profile, w.now.Floor));
          Save();
          return false;
        }
        Unpark(g);
      }
      failed := Try(w, g, p, withLog);
      Save();
    }

    method Park(g: Game, wait: Wait)
      modifies this`unsupported
      ensures var e := old(At(Live(), g));
              Updates(Live(), old(Live()), g, if e.unsupported.Some? then e else e.(unsupported := Some(wait)))
    {
      if g !in unsupported {
        unsupported := unsupported[g := wait];
      }
    }

    method Unpark(g: Game)
      modifies this`unsupported, this`checked
      ensures var e := old(At(Live(), g));
              Updates(Live(), old(Live()), g, e.(unsupported := None, trace := e.trace.(checked := true)))
    {
      unsupported := unsupported - {g};
      checked := checked + {g};
    }

    /** The guarded part: the check, then the delivery. */
    method Try(w: World, g: Game, job: Job, withLog: bool) returns (failed: bool)
      modifies this`pending, this`givenUp, this`done, this`posted
      ensures failed == TryStep(old(At(Live(), g)), w, g, job, withLog).1
      ensures Updates(Live(), old(Live()), g, TryStep(old(At(Live(), g)), w, g, job, withLog).0)
    {
      var p := job;
      if p.stage == Check && withLog {
        if !w.checks(g) {
          Failed(g, p);
          return true;
        }
        p := Job(Post, 0, false);
      }
      posted := if w.url then posted + {g} else posted;
      if w.url && !w.delivers(g) {
        Failed(g, p);
        return true;
      }
      pending := pending - {g};
      done := done + {g};
      failed := false;
    }

    /** The listed games, then the pending, the waiting, and the supported ones that are not listed. */
    method Ids(w: World) returns (ids: seq<Game>)
      requires w.incoming.None? && Distinct(w.listing)
      ensures Distinct(ids) && forall g :: g in ids <==> Selected(At(Live(), g), w, g)
    {
      ids := Append(w.listing, pending.Keys);
      ids := Append(ids, inputWait.Keys);
      ids := Append(ids, set g | g in unsupported && w.installed(unsupported[g].profile));
    }

    /** The fetch loop. */
    method FetchAll(w: World, ids: seq<Game>) returns (failed: seq<(Game, bool)>, work: seq<(Game, bool)>)
      requires w.incoming.None? && Distinct(ids)
      modifies this`inputWait, this`fetched
      ensures FetchedUpTo(Live(), old(Live()), ids, w)
      ensures SortedOut(old(Live()), ids, w, failed, work)
    {
      ghost var s := Live();
      failed, work := [], [];
      var i := 0;
      while i < |ids|
        invariant 0 <= i <= |ids|
        invariant FetchedUpTo(Live(), s, ids[..i], w) && Live().done == s.done
        invariant SortedOut(s, ids[..i], w, failed, work)
      {
        var g := ids[i];
        ghost var t, failed', work' := Live(), failed, work;
        FirstTime(ids, i);
        ghost var o := OutcomeIn(s, w, g);
        if g !in done {
          var outcome := FetchOne(w, g);
          match outcome {
            case Nothing =>
            case Failing(listed) => failed := failed + [(g, listed)];
            case Due(withLog) => work := work + [(g, withLog)];
          }
        }
        assert ids[..i + 1] == ids[..i] + [g];
        FetchedStep(Live(), t, s, ids[..i], g, w);
        SortedStep(s, ids[..i], g, w, failed', work', failed, work, o);
        i := i + 1;
      }
      assert ids[..i] == ids;
    }

    /** The loop over the failed fetches. */
    method FailAll(failed: seq<(Game, bool)>)
      requires DistinctPairs(failed)
      modifies this`pending, this`givenUp
      ensures FailedUpTo(Live(), old(Live()), failed)
    {
      ghost var s := Live();
      var i := 0;
      while i < |failed|
        invariant 0 <= i <= |failed|
        invariant FailedUpTo(Live(), s, failed[..i])
      {
        ghost var u := Live();
        NextPair(failed, i);
        FailOne(failed[i].0, failed[i].1);
        FailedStep(Live(), u, s, failed[..i], failed[i], failed[..i + 1]);
        i := i + 1;
      }
      assert failed[..i] == failed;
    }

    method FailOne(g: Game, listed: bool)
      modifies this`pending, this`givenUp
      ensures Updates(Live(), old(Live()), g, AfterFailedFetch(old(At(Live(), g)), listed))
    {
      var p := if g in pending then pending[g] else Job(Check, 0, false);
      Failed(g, p.(hasInput := listed || p.hasInput));
    }

    /** The work loop, and the number of its failures. */
    method WorkAll(w: World, work: seq<(Game, bool)>) returns (failures: nat)
      requires DistinctPairs(work)
      modifies this
      ensures cursor == old(cursor)
      ensures WorkedUpTo(Live(), old(Live()), work, w)
      ensures failures > 0 <==> SomeFailed(old(Live()), work, w)
    {
      ghost var s := Live();
      failures := 0;
      var i := 0;
      while i < |work|
        invariant 0 <= i <= |work| && cursor == old(cursor)
        invariant WorkedUpTo(Live(), s, work[..i], w)
        invariant failures > 0 <==> SomeFailed(s, work[..i], w)
      {
        ghost var u := Live();
        NextPair(work, i);
        var failed := WorkOne(w, work[i].0, work[i].1);
        WorkedStep(Live(), u, s, work[..i], work[i], work[..i + 1], w, failed);
        failures := if failed then failures + 1 else failures;
        i := i + 1;
      }
      assert work[..i] == work;
    }

    /** The first half of the run: the games to work on, and those that could not be fetched. */
    method Gather(w: World) returns (failed: seq<(Game, bool)>, work: seq<(Game, bool)>)
      requires Distinct(if w.incoming.Some? then w.incoming.value else w.listing)
      modifies this`inputWait, this`fetched
      ensures Ready(Live(), old(Live()), w, failed, work)
    {
      ghost var s := Live();
      if w.incoming.Some? {
        failed := [];
        work := Incoming(w.incoming.value);
        IncomingReady(s, w, work);
      } else {
        var ids := Ids(w);
        failed, work := FetchAll(w, ids);
        FetchedReady(Live(), s, w, ids, failed, work);
      }
    }

    /** The games of --incoming that are not done. */
    method Incoming(games: seq<Game>) returns (work: seq<(Game, bool)>)
      requires Distinct(games)
      ensures DistinctPairs(work) && forall p :: p in work <==> p.0 in games && p.0 !in done && p.1
    {
      work := [];
      var i := 0;
      while i < |games|
        invariant 0 <= i <= |games|
        invariant DistinctPairs(work)
        invariant forall p :: p in work <==> p.0 in games[..i] && p.0 !in done && p.1
      {
        var g := games[i];
        FirstTime(games, i);
        assert games[..i + 1] == games[..i] + [g];
        assert !Mentions(work, g);
        DistinctMore(work, (g, true));
        if g !in done {
          work := work + [(g, true)];
        }
        i := i + 1;
      }
      assert games[..i] == games;
    }

    /**
     One run: whatever the order of its loops, every game's entry is moved on by exactly its own step;
     the exit code tells whether any game failed.
     */
    method WatchOnce(w: World) returns (code: int)
      requires Distinct(if w.incoming.Some? then w.incoming.value else w.listing)
      modifies this
      ensures forall g :: Stored(g) == Next(old(Stored(g)), w, g)
      ensures code == 0 || code == 1
      ensures code == 1 <==> exists g :: Fails(old(Stored(g)), w, g)
      ensures cursor == if w.incoming.None? && w.cursor.Some? then w.cursor else old(cursor)
    {
      ghost var file := State(saved, givenUp, expired, pending, unsupported, inputWait, fetched, checked, posted);
      Begin(w);
      ghost var s := Live();
      FinishedIsNext(s, file, w);
      var failed, work := Gather(w);
      if w.incoming.None? {
        cursor := if w.cursor.Some? then w.cursor else cursor;
      }
      var bad := Finish(w, failed, work, s);
      code := if bad then 1 else 0;
    }

    /** The union of the three lists, and the expiry. */
    method Begin(w: World)
      modifies this`done, this`unsupported, this`expired, this`fetched, this`checked, this`posted
      ensures forall g :: At(Live(), g) == Start(old(Stored(g)), w)
    {
      ghost var file := State(saved, givenUp, expired, pending, unsupported, inputWait, fetched, checked, posted);
      done := saved + givenUp + expired;
      fetched, checked, posted := {}, {}, {};
      ghost var first := Live();
      Expire(w.now);
      StartOf(file, first, Live(), w);
    }

    /** Both last loops, and the final save. */
    method Finish(w: World, failed: seq<(Game, bool)>, work: seq<(Game, bool)>, ghost s: State) returns (bad: bool)
      requires Ready(Live(), s, w, failed, work)
      modifies this
      ensures cursor == old(cursor)
      ensures forall g :: Stored(g) == FinishedEntry(s, w, g)
      ensures bad <==> exists g :: FailsFrom(s, w, g)
    {
      ghost var t := Live();
      FailAll(failed);
      ghost var u := Live();
      var failures := WorkAll(w, work);
      RunIsFinished(Live(), u, t, s, w, failed, work);
      Save();
      bad := failures + |failed| > 0;
    }
  }

  /** The part of a work step behind the choice of the checker. */
  function TryStep(e: Entry, w: World, g: Game, p: Job, withLog: bool): (Entry, bool) {
    if p.stage == Check && withLog then
      if w.checks(g) then DeliverStep(e, w, g, Job(Post, 0, false)) else (AfterFailure(e, p), true)
    else DeliverStep(e, w, g, p)
  }

  lemma ExpireStep(t: State, u: State, s: State, todo: set<Game>, g: Game, now: real)
    requires ExpiredBut(u, s, todo, now) && g in todo && Updates(t, u, g, Expired(At(u, g), now))
    ensures ExpiredBut(t, s, todo - {g}, now)
  {
    assert At(u, g) == At(s, g);
  }

  method Append(gs: seq<Game>, more: set<Game>) returns (r: seq<Game>)
    requires Distinct(gs)
    ensures Distinct(r) && forall g :: g in r <==> g in gs || g in more
  {
    r := gs;
    var todo := more;
    while todo != {}
      invariant Distinct(r) && todo <= more
      invariant forall g :: g in r <==> g in gs || g in more - todo
      decreases |todo|
    {
      var g :| g in todo;
      if g !in r {
        r := r + [g];
      }
      todo := todo - {g};
    }
  }

  lemma FirstTime(ids: seq<Game>, i: nat)
    requires i < |ids| && Distinct(ids)
    ensures ids[i] !in ids[..i]
  {
  }

  lemma FetchedStep(t: State, u: State, s: State, gs: seq<Game>, g: Game, w: World)
    requires FetchedUpTo(u, s, gs, w) && g !in gs
    requires Updates(t, u, g, if At(u, g).done then At(u, g) else FetchStep(At(u, g), w, g).0)
    ensures FetchedUpTo(t, s, gs + [g], w)
  {
    assert At(u, g) == At(s, g);
  }

  lemma MentionsWhere(ps: seq<(Game, bool)>, g: Game)
    ensures Mentions(ps, g) <==> exists k :: 0 <= k < |ps| && ps[k].0 == g
  {
    if k :| 0 <= k < |ps| && ps[k].0 == g {
      assert ps[k] == (g, ps[k].1);
      if ps[k].1 {
        assert ps[k] == (g, true);
      } else {
        assert ps[k] == (g, false);
      }
    }
  }

  lemma DistinctMore(ps: seq<(Game, bool)>, p: (Game, bool))
    requires DistinctPairs(ps) && !Mentions(ps, p.0)
    ensures DistinctPairs(ps + [p])
  {
    MentionsWhere(ps, p.0);
  }

  lemma SortedStep(s: State, gs: seq<Game>, g: Game, w: World, failed: seq<(Game, bool)>, work: seq<(Game, bool)>,
                   failed': seq<(Game, bool)>, work': seq<(Game, bool)>, o: Outcome)
    requires SortedOut(s, gs, w, failed, work) && g !in gs && o == OutcomeIn(s, w, g)
    requires failed' == if o.Failing? then failed + [(g, o.listed)] else failed
    requires work' == if o.Due? then work + [(g, o.withLog)] else work
    ensures SortedOut(s, gs + [g], w, failed', work')
  {
    if o.Failing? {
      ListsMore(s, gs, w, false, failed, (g, o.listed));
    } else {
      ListsSame(s, gs, w, false, failed, g);
    }
    if o.Due? {
      ListsMore(s, gs, w, true, work, (g, o.withLog));
    } else {
      ListsSame(s, gs, w, true, work, g);
    }
  }

  lemma ListsMore(s: State, gs: seq<Game>, w: World, due: bool, ps: seq<(Game, bool)>, p: (Game, bool))
    requires Lists(s, gs, w, due, ps) && p.0 !in gs && IsListedAs(s, w, due, p)
    ensures Lists(s, gs + [p.0], w, due, ps + [p])
  {
    assert !Mentions(ps, p.0);
    DistinctMore(ps, p);
    forall q ensures q in ps + [p] <==> q.0 in gs + [p.0] && IsListedAs(s, w, due, q) {
      assert q in ps + [p] <==> q in ps || q == p;
      assert q.0 in gs + [p.0] <==> q.0 in gs || q.0 == p.0;
    }
  }

  lemma ListsSame(s: State, gs: seq<Game>, w: World, due: bool, ps: seq<(Game, bool)>, g: Game)
    requires Lists(s, gs, w, due, ps) && g !in gs
    requires forall b: bool :: !IsListedAs(s, w, due, (g, b))
    ensures Lists(s, gs + [g], w, due, ps)
  {
    forall q ensures q in ps <==> q.0 in gs + [g] && IsListedAs(s, w, due, q) {
      assert q == (q.0, q.1);
      assert q.0 in gs + [g] <==> q.0 in gs || q.0 == g;
    }
  }

  lemma NextPair(ps: seq<(Game, bool)>, i: nat)
    requires i < |ps| && DistinctPairs(ps)
    ensures !Mentions(ps[..i], ps[i].0) && ps[..i + 1] == ps[..i] + [ps[i]]
  {
    MentionsWhere(ps[..i], ps[i].0);
  }

  lemma FailedStep(t: State, u: State, s: State, ps: seq<(Game, bool)>, p: (Game, bool), next: seq<(Game, bool)>)
    requires FailedUpTo(u, s, ps) && !Mentions(ps, p.0) && next == ps + [p]
    requires Updates(t, u, p.0, AfterFailedFetch(At(u, p.0), p.1))
    ensures FailedUpTo(t, s, next)
  {
    assert At(u, p.0) == At(s, p.0);
    forall q | q in next ensures At(t, q.0) == AfterFailedFetch(At(s, q.0), q.1) {
      assert q in ps || q == p;
    }
  }

  lemma WorkedStep(t: State, u: State, s: State, ps: seq<(Game, bool)>, p: (Game, bool), next: seq<(Game, bool)>,
                   w: World, failed: bool)
    requires WorkedUpTo(u, s, ps, w) && !Mentions(ps, p.0) && next == ps + [p]
    requires Updates(t, u, p.0, WorkStep(At(u, p.0), w, p.0, p.1).0) && failed == WorkStep(At(u, p.0), w, p.0, p.1).1
    ensures WorkedUpTo(t, s, next, w)
    ensures SomeFailed(s, next, w) <==> SomeFailed(s, ps, w) || failed
  {
    assert At(u, p.0) == At(s, p.0);
    forall q | q in next ensures At(t, q.0) == WorkStep(At(s, q.0), w, q.0, q.1).0 {
      assert q in ps || q == p;
    }
    assert p in next;
    assert WorkFails(s, w, p) == failed;
    assert forall q :: q in next <==> q in ps || q == p;
  }

  lemma IncomingReady(s: State, w: World, work: seq<(Game, bool)>)
    requires w.incoming.Some? && DistinctPairs(work)
    requires forall p :: p in work <==> p.0 in w.incoming.value && p.0 !in s.done && p.1
    ensures Ready(s, s, w, [], work)
  {
  }

  lemma FetchedReady(t: State, s: State, w: World, ids: seq<Game>, failed: seq<(Game, bool)>, work: seq<(Game, bool)>)
    requires w.incoming.None? && (forall g :: g in ids <==> Selected(At(s, g), w, g))
    requires FetchedUpTo(t, s, ids, w) && SortedOut(s, ids, w, failed, work)
    ensures Ready(t, s, w, failed, work)
  {
    ListsReady(s, w, ids, false, failed);
    ListsReady(s, w, ids, true, work);
    forall g ensures At(t, g) == FetchedEntry(At(s, g), w, g).0 {
      assert g in ids <==> Selected(At(s, g), w, g);
    }
  }

  lemma ListsReady(s: State, w: World, ids: seq<Game>, due: bool, ps: seq<(Game, bool)>)
    requires w.incoming.None? && (forall g :: g in ids <==> Selected(At(s, g), w, g))
    requires Lists(s, ids, w, due, ps)
    ensures ListsAll(s, w, due, ps)
  {
    forall p ensures p in ps <==> Fate(s, w, p.0) == (if due then Due(p.1) else Failing(p.1)) {
      assert p in ps <==> p.0 in ids && IsListedAs(s, w, due, p);
      assert p.0 in ids <==> Selected(At(s, p.0), w, p.0);
    }
  }

  lemma StartOf(file: State, first: State, s: State, w: World)
    requires first == file.(done := file.done + file.givenUp + file.expired, fetched := {}, checked := {}, posted := {})
    requires ExpiredBut(s, first, {}, w.now)
    ensures forall g :: At(s, g) == Start(At(file, g), w)
  {
    forall g ensures At(s, g) == Start(At(file, g), w) {
      assert At(first, g) == Opened(At(file, g));
    }
  }

  /** The two last loops, for one game. */
  lemma WorkedOne(v: State, u: State, t: State, s: State, w: World, failed: seq<(Game, bool)>, work: seq<(Game, bool)>,
                  g: Game)
    requires Ready(t, s, w, failed, work) && FailedUpTo(u, t, failed) && WorkedUpTo(v, u, work, w)
    ensures var (f, o) := FetchedEntry(At(s, g), w, g);
            At(v, g) == Worked(f, o, w, g).0 && (o.Due? ==> At(u, g) == f)
  {
    var (f, o) := FetchedEntry(At(s, g), w, g);
    assert Fate(s, w, g) == o && At(t, g) == f;
    match o
    case Nothing =>
    case Failing(listed) => assert (g, listed) in failed;
    case Due(withLog) => assert (g, withLog) in work;
  }

  lemma FailuresAre(u: State, t: State, s: State, w: World, failed: seq<(Game, bool)>, work: seq<(Game, bool)>)
    requires Ready(t, s, w, failed, work) && FailedUpTo(u, t, failed)
    ensures |failed| > 0 || SomeFailed(u, work, w) <==> exists g :: FailsFrom(s, w, g)
  {
    if |failed| > 0 {
      var p := failed[0];
      assert p in failed;
      assert FailsFrom(s, w, p.0);
    }
    if p :| p in work && WorkFails(u, w, p) {
      assert Fate(s, w, p.0) == Due(p.1);
      assert FailsFrom(s, w, p.0);
    }
    if g :| FailsFrom(s, w, g) {
      FailsIsListed(u, t, s, w, failed, work, g);
    }
  }

  ghost predicate FailsFrom(s: State, w: World, g: Game) {
    var (f, o) := FetchedEntry(At(s, g), w, g);
    Worked(f, o, w, g).1
  }

  lemma FailsIsListed(u: State, t: State, s: State, w: World, failed: seq<(Game, bool)>, work: seq<(Game, bool)>,
                      g: Game)
    requires Ready(t, s, w, failed, work) && FailedUpTo(u, t, failed) && FailsFrom(s, w, g)
    ensures |failed| > 0 || SomeFailed(u, work, w)
  {
    var o := Fate(s, w, g);
    match o
    case Nothing =>
    case Failing(listed) => assert (g, listed) in failed;
    case Due(withLog) =>
      assert (g, withLog) in work;
      assert (g, !withLog) !in failed && (g, withLog) !in failed;
      assert WorkFails(u, w, (g, withLog));
  }

  ghost function FinishedEntry(s: State, w: World, g: Game): Entry {
    var (f, o) := FetchedEntry(At(s, g), w, g);
    Closed(Worked(f, o, w, g).0)
  }

  lemma RunIsFinished(v: State, u: State, t: State, s: State, w: World, failed: seq<(Game, bool)>,
                      work: seq<(Game, bool)>)
    requires Ready(t, s, w, failed, work) && FailedUpTo(u, t, failed) && WorkedUpTo(v, u, work, w)
    ensures forall g :: Closed(At(v, g)) == FinishedEntry(s, w, g)
    ensures |failed| > 0 || SomeFailed(u, work, w) <==> exists g :: FailsFrom(s, w, g)
  {
    forall g ensures Closed(At(v, g)) == FinishedEntry(s, w, g) {
      WorkedOne(v, u, t, s, w, failed, work, g);
    }
    FailuresAre(u, t, s, w, failed, work);
  }

  lemma FinishedIsNext(s: State, file: State, w: World)
    requires forall g :: At(s, g) == Start(At(file, g), w)
    ensures forall g :: FinishedEntry(s, w, g) == Next(At(file, g), w, g)
    ensures (exists g :: FailsFrom(s, w, g)) <==> exists g :: Fails(At(file, g), w, g)
  {
    forall g
      ensures FinishedEntry(s, w, g) == Next(At(file, g), w, g) && FailsFrom(s, w, g) == Fails(At(file, g), w, g)
    {
      assert At(s, g) == Start(At(file, g), w);
    }
  }
}
