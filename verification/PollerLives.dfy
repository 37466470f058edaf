/**
 A poller that is started again and again: each life begins with the cursor file of the one
 before, however that ended, and what is handed over is looked at across all lives.
 */
module PollerLives {
  import opened Options
  import opened ForkDB
  import opened Poller
  import opened PollerRuns
  import opened PollerRestart
  import opened PollerBackfill
  import opened PollerRequests

  /**
   The gate of one life, the start block it fetches for itself, what the fetcher answers from then
   on, and which blocks the handler takes. `ignores` says that the cursor file is not used or cannot be
   read. `torn` is a block whose segment is handed over just before a crash that keeps the
   cursor file from being written.
   */
  datatype Life = Life(
    gate: nat, start: Ref, ignores: bool, fetches: seq<Fetch>, accepts: Block -> bool, torn: Option<Block>)

  ghost predicate SoundLife(g: Ledger, life: Life) {
    && g.num(life.start.id) == life.start.num
    && SoundFetches(g, life.fetches) && (life.torn.Some? ==> Sound(g, life.torn.value))
  }

  ghost predicate SoundLives(g: Ledger, lives: seq<Life>) {
    forall i | 0 <= i < |lives| :: SoundLife(g, lives[i])
  }

  /** A step up to the point where the LIB would move and the cursor file be written. */
  function Fired(s: State, b: Block, cfg: Config): State
    requires WellLinked(AddLink(s.db.links, b))
  {
    if b.num < s.db.lib.num then s else
      var s1 := Arrive(s, b);
      match SegmentRef(s1.cur)
      case None => s1
      case Some(tip) => FiredAt(s1, tip.id, cfg)
  }

  function FiredAt(s: State, tip: string, cfg: Config): State
    requires WellLinked(s.db.links)
  {
    if !Reaches(s.db.links, tip, s.db.lib.id) then s.(cur := NotConnected(s.cur))
    else
      var due := Due(s.db.links, s.db.fired, cfg.gate, Walk(s.db.links, tip));
      var part := due[..Taken(cfg.accepts, due)];
      s.(cur := Connected(s.cur), db := s.db.(fired := s.db.fired + Ids(part)), log := s.log + part)
  }

  /** Up to there a step hands over exactly what the whole step does, and writes nothing. */
  lemma FiredHandsOver(s: State, b: Block, cfg: Config, e: Env)
    requires cfg.gate == e.gate && BackInv(s, e) && Sound(e.g, b)
    ensures WellLinked(AddLink(s.db.links, b))
    ensures var s' := Fired(s, b, cfg);
            s'.log == Process(s, b, cfg).0.log && s'.saved == s.saved && BackInv(s', e)
  {
    AddedAgrees(s.db.links, b, e.g);
    if s.db.lib.num <= b.num {
      ArriveKeeps(s, b, e);
      ArriveParentNums(s, b, e.g);
      FiredAtHandsOver(Arrive(s, b), b, SegmentRef(Arrive(s, b).cur).value.id, cfg, e);
    }
  }

  lemma FiredAtHandsOver(s: State, b: Block, tip: string, cfg: Config, e: Env)
    requires cfg.gate == e.gate && SavedInv(s, e) && ParentNumsKnown(s.db, e.g)
    requires DbInv(s.db, e) && WellLinked(s.db.links) && Accounted(s.db, s.log, e) && Safe(s.log, e)
    requires tip in s.db.links && SegmentRef(s.cur).Some? && SegmentRef(s.cur).value.id == tip
    ensures var s' := FiredAt(s, tip, cfg);
            s'.log == Resolve(s, b, tip, cfg).0.log && s'.saved == s.saved && BackInv(s', e)
  {
    if Reaches(s.db.links, tip, s.db.lib.id) {
      FiredSegment(s.(cur := Connected(s.cur)), b, tip, cfg, e);
    } else {
      PendingKeeps(s, b, tip, cfg, e);
      assert Resolve(s, b, tip, cfg).0 == s.(cur := NotConnected(s.cur));
    }
  }

  lemma FiredSegment(s: State, b: Block, tip: string, cfg: Config, e: Env)
    requires cfg.gate == e.gate && SavedInv(s, e) && ParentNumsKnown(s.db, e.g) && s.cur.state.Continuous?
    requires DbInv(s.db, e) && WellLinked(s.db.links) && Accounted(s.db, s.log, e) && Safe(s.log, e)
    requires tip in s.db.links && Reaches(s.db.links, tip, s.db.lib.id)
    ensures var due := Due(s.db.links, s.db.fired, cfg.gate, Walk(s.db.links, tip));
            var part := due[..Taken(cfg.accepts, due)];
            var s' := s.(db := s.db.(fired := s.db.fired + Ids(part)), log := s.log + part);
            BackInv(s', e) && s'.log == FireAndSave(s, b, Walk(s.db.links, tip), cfg).0.log
  {
    var seg := Walk(s.db.links, tip);
    var due := Due(s.db.links, s.db.fired, cfg.gate, seg);
    var n := Taken(cfg.accepts, due);
    var db' := s.db.(fired := s.db.fired + Ids(due[..n]));
    FireAndSaveShape(s, b, seg, cfg, due, n);
    FireKeeps(s.db, s.log, tip, e);
    DueIsStored(s.db.links, s.db.fired, seg, due, e);
    PartKeeps(s.db, s.log, due, n, e);
    ParentNumsOf(s.db, db', e.g);
    IdsAppend(s.log, due[..n]);
  }

  // ---- across all lives

  /** The parent, if any, was handed over before, in whatever life, or lies below a gate; or a start is near. */
  ghost predicate Follows(before: seq<Block>, b: Block, g: Ledger, gate: nat, starts: set<string>) {
    || b.parentId == "" || b.parentId in Ids(before) || g.num(b.parentId) < gate
    || b.id in starts || b.parentId in starts
  }

  ghost predicate Told(all: seq<Block>, g: Ledger, gate: nat, starts: set<string>) {
    forall i | 0 <= i < |all| :: Agrees(g, all[i]) && Follows(all[..i], all[i], g, gate, starts)
  }

  /**
   What the lives so far leave behind: the cursor file and all that was handed over. `starts` are
   the start blocks of the lives that began without a file, `gate` is the highest gate so far.
   */
  datatype Past = Past(file: Option<StateFile>, all: seq<Block>, starts: set<string>, gate: nat)

  /** The file tells the truth, and what it restores was handed over in some life, or is gated. */
  ghost predicate PastOk(p: Past, g: Ledger) {
    && Told(p.all, g, p.gate, p.starts)
    && (p.file.Some? ==>
          && Trusted(g, p.file.value)
          && (forall x | x in p.file.value.blocks :: x.id in Ids(p.all) || x.num < p.gate)
          && Known(p.file.value.lib.id, p, g))
  }

  /** A LIB to start on: it was handed over, is gated, or was a start itself. */
  ghost predicate Known(id: string, p: Past, g: Ledger) {
    id in Ids(p.all) || g.num(id) < p.gate || id in p.starts
  }

  function Opened(p: Past, life: Life): Option<StateFile> {
    if life.ignores then None else p.file
  }

  ghost function LifeEnv(p: Past, g: Ledger, life: Life): Env {
    StartEnv(g, life.gate, life.start, Opened(p, life))
  }

  /** A life starts ready, whatever the ones before left behind. */
  lemma LifeStarts(p: Past, g: Ledger, life: Life)
    requires Acyclic(g) && PastOk(p, g) && g.num(life.start.id) == life.start.num
    ensures BackInv(InitState(life.start, Opened(p, life)).0, LifeEnv(p, g, life))
  {
    StartIsReady(g, life.gate, life.start, Opened(p, life));
  }

  ghost function LifeEnd(p: Past, g: Ledger, life: Life): (s: State)
    requires Acyclic(g) && PastOk(p, g) && SoundLife(g, life)
    ensures BackInv(s, LifeEnv(p, g, life))
  {
    var (s0, num) := InitState(life.start, Opened(p, life));
    var e, cfg := LifeEnv(p, g, life), Config(life.gate, life.accepts);
    LifeStarts(p, g, life);
    RunStaysReady(s0, num, None, life.fetches, cfg, e);
    var s := Run(g, s0, num, None, life.fetches, cfg).0;
    if life.torn.None? then s
    else
      FiredHandsOver(s, life.torn.value, cfg, e);
      Fired(s, life.torn.value, cfg)
  }

  ghost function After(p: Past, g: Ledger, life: Life): Past
    requires Acyclic(g) && PastOk(p, g) && SoundLife(g, life)
  {
    var s := LifeEnd(p, g, life);
    Past(if s.saved.Some? then s.saved else p.file, p.all + s.log,
         if Opened(p, life).None? then p.starts + {life.start.id} else p.starts,
         if p.gate < life.gate then life.gate else p.gate)
  }

  lemma ToldOneMore(all: seq<Block>, b: Block, g: Ledger, gate: nat, starts: set<string>)
    requires Told(all, g, gate, starts) && Agrees(g, b) && Follows(all, b, g, gate, starts)
    ensures Told(all + [b], g, gate, starts)
  {
    forall i | 0 <= i < |all + [b]|
      ensures (all + [b])[..i] == if i < |all| then all[..i] else all
    {
    }
  }

  /** A block handed over before had its parent handed over before. */
  lemma ToldAgain(all: seq<Block>, b: Block, g: Ledger, gate: nat, starts: set<string>)
    requires Told(all, g, gate, starts) && b.id in Ids(all) && Agrees(g, b)
    ensures Follows(all, b, g, gate, starts)
  {
    var i :| 0 <= i < |all| && all[i].id == b.id;
    assert Follows(all[..i], all[i], g, gate, starts);
    assert all == all[..i] + all[i..];
    IdsAppend(all[..i], all[i..]);
  }

  /** What fits in one life follows its parent across all of them. */
  lemma FitFollows(before: seq<Block>, log: seq<Block>, b: Block, e: Env, gate: nat, starts: set<string>)
    requires Acyclic(e.g) && Told(before + log, e.g, gate, starts) && Fits(log, b, e) && e.gate <= gate
    requires forall id | id in e.restored :: id in Ids(before) || e.g.num(id) < gate
    requires e.anchor in starts || e.anchor in Ids(before) || e.g.num(e.anchor) < gate
    ensures Follows(before + log, b, e.g, gate, starts)
  {
    IdsAppend(before, log);
    assert RisesFromParent(e.g, b.id);
    if b.id == e.anchor && b.id in Ids(before) {
      ToldAgain(before + log, b, e.g, gate, starts);
    }
  }

  lemma {:induction false} LogFollows(before: seq<Block>, log: seq<Block>, e: Env, gate: nat, starts: set<string>)
    requires Acyclic(e.g) && Told(before, e.g, gate, starts) && Safe(log, e) && e.gate <= gate
    requires forall id | id in e.restored :: id in Ids(before) || e.g.num(id) < gate
    requires e.anchor in starts || e.anchor in Ids(before) || e.g.num(e.anchor) < gate
    ensures Told(before + log, e.g, gate, starts)
  {
    if log == [] {
      assert before + log == before;
    } else {
      var low, b := log[..|log| - 1], log[|log| - 1];
      LogFollows(before, low, e, gate, starts);
      FitFollows(before, low, b, e, gate, starts);
      ToldOneMore(before + low, b, e.g, gate, starts);
      assert before + low + [b] == before + log;
    }
  }

  lemma RestoredIsKnown(p: Past, g: Ledger, life: Life)
    requires Acyclic(g) && PastOk(p, g) && SoundLife(g, life)
    ensures var e, p' := LifeEnv(p, g, life), After(p, g, life);
            && p.starts <= p'.starts && p.gate <= p'.gate && e.gate <= p'.gate
            && (forall id | id in e.restored :: id in Ids(p.all) || g.num(id) < p'.gate)
            && (e.anchor in p'.starts || e.anchor in Ids(p.all) || g.num(e.anchor) < p'.gate)
  {
  }

  /** What one more life leaves behind can be relied on again. */
  lemma AfterIsOk(p: Past, g: Ledger, life: Life)
    requires Acyclic(g) && PastOk(p, g) && SoundLife(g, life)
    ensures PastOk(After(p, g, life), g)
  {
    var s, e, p' := LifeEnd(p, g, life), LifeEnv(p, g, life), After(p, g, life);
    RestoredIsKnown(p, g, life);
    LogFollows(p.all, s.log, e, p'.gate, p'.starts);
    IdsAppend(p.all, s.log);
    if s.saved.Some? {
      FileIsKnown(s.saved.value, s, e, p, p');
    }
  }

  lemma FileIsKnown(sf: StateFile, s: State, e: Env, p: Past, p': Past)
    requires FileInv(sf, s.db.lib, s.log, e) && Ids(p'.all) == Ids(p.all) + Ids(s.log) && e.gate <= p'.gate
    requires forall id | id in e.restored :: id in Ids(p.all) || e.g.num(id) < p'.gate
    requires e.anchor in p'.starts || e.anchor in Ids(p.all) || e.g.num(e.anchor) < p'.gate
    ensures Trusted(e.g, sf) && Known(sf.lib.id, p', e.g)
    ensures forall x | x in sf.blocks :: x.id in Ids(p'.all) || x.num < p'.gate
  {
    if sf.lib.id in SavedIds(sf.blocks) {
      var x :| x in sf.blocks && x.id == sf.lib.id;
    }
  }

  /** All lives, one after the other. */
  ghost function Lives(g: Ledger, lives: seq<Life>): (p: Past)
    requires Acyclic(g) && SoundLives(g, lives)
    ensures PastOk(p, g)
    decreases |lives|
  {
    if lives == [] then Past(None, [], {}, 0)
    else
      var p := Lives(g, lives[..|lives| - 1]);
      AfterIsOk(p, g, lives[|lives| - 1]);
      After(p, g, lives[|lives| - 1])
  }

  /**
   However often the poller is stopped, is refused a block, or crashes, be it between handing
   blocks over and saving, and is started again, from its cursor file or without it, each time
   with its own gate and the start block it then fetches: over all lives each block handed over
   comes after its parent, unless it has none or that lies below a gate, excusing the start blocks
   of lives that began without a file and their children; no life hands a block over twice, or from
   below its gate, or one that it restored; and every life ends ready for backfill.
   */
  lemma EveryLife(g: Ledger, lives: seq<Life>, life: Life)
    requires Acyclic(g) && SoundLives(g, lives) && SoundLife(g, life)
    ensures var p := Lives(g, lives);
            var s, e, p' := LifeEnd(p, g, life), LifeEnv(p, g, life), After(p, g, life);
            && (life.torn.None? ==>
                  FileTrusted(g, Opened(p, life)) &&
                  s == RunFrom(g, life.start, Opened(p, life), life.fetches, Config(life.gate, life.accepts)).0)
            && Opened(p, life) == (if life.ignores then None else p.file)
            && p'.file == (if s.saved.Some? then s.saved else p.file) && p'.all == p.all + s.log
            && (forall i | 0 <= i < |p'.all| ::
                  || p'.all[i].parentId == "" || p'.all[i].parentId in Ids(p'.all[..i])
                  || g.num(p'.all[i].parentId) < p'.gate
                  || p'.all[i].id in p'.starts || p'.all[i].parentId in p'.starts)
            && (forall i, j | 0 <= i < j < |s.log| :: s.log[i].id != s.log[j].id)
            && (forall i | 0 <= i < |s.log| :: s.log[i].id !in e.restored && life.gate <= s.log[i].num)
            && BackInv(s, e)
  {
    var p := Lives(g, lives);
    var s, e := LifeEnd(p, g, life), LifeEnv(p, g, life);
    AfterIsOk(p, g, life);
    forall i, j | 0 <= i < j < |s.log|
      ensures s.log[i].id != s.log[j].id
    {
      SafeNeverTwice(s.log, i, j, e);
    }
    forall i | 0 <= i < |s.log|
      ensures s.log[i].id !in e.restored && life.gate <= s.log[i].num
    {
      SafeAt(s.log, i, e);
    }
  }

  /** In particular a fresh run that the handler ended, and then a restart. */
  lemma RefusedThenRestarted(g: Ledger, start: Ref, first: seq<Fetch>, second: seq<Fetch>,
                             cfg: Config, cfg2: Config)
    requires Acyclic(g) && g.num(start.id) == start.num && SoundFetches(g, first) && SoundFetches(g, second)
    requires cfg.gate == cfg2.gate
    ensures var s := Run(g, InitState(start, None).0, start.num, None, first, cfg).0;
            s.saved.Some? ==>
              (Truthful(g, s.saved.value) &&
               var log := Restart(g, start, s.saved.value, second, cfg2).0.log;
               && (forall i | 0 <= i < |log| :: log[i].id !in SavedIds(s.saved.value.blocks))
               && (forall i | 0 <= i < |log| ::
                     || log[i].parentId in Ids(s.log + log[..i]) || g.num(log[i].parentId) < cfg.gate
                     || log[i].id == start.id || log[i].parentId == start.id))
  {
    var e := FreshEnv(g, cfg.gate, start);
    var s0 := InitState(start, None).0;
    FreshIsReady(g, cfg.gate, start);
    RunStaysReady(s0, start.num, None, first, cfg, e);
    var s := Run(g, s0, start.num, None, first, cfg).0;
    if s.saved.Some? {
      RestartKeepsOrder(s, e, start, second, cfg2);
      forall before: seq<Block>
        ensures Ids(s.log + before) == Ids(s.log) + Ids(before)
      {
        IdsAppend(s.log, before);
      }
    }
  }
}
