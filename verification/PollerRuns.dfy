/** Whole runs of the poller: any answers of the fetcher, in any order. */
module PollerRuns {
  import opened Options
  import opened ForkDB
  import opened Poller

  /** What the fetcher answers to one request. */
  datatype Fetch = Got(blk: Block) | Skipped | Failed

  datatype Stop = Waiting(num: nat, hash: Option<string>) | Stopped(why: Outcome) | FetchError | SkippedByHash

  ghost predicate SoundFetches(g: Ledger, fetches: seq<Fetch>) {
    forall i | 0 <= i < |fetches| && fetches[i].Got? :: Sound(g, fetches[i].blk)
  }

  lemma ProcessAgrees(g: Ledger, s: State, b: Block, cfg: Config)
    requires Acyclic(g) && LinksAgree(g, s.db.links) && Sound(g, b)
    ensures WellLinked(AddLink(s.db.links, b)) && LinksAgree(g, Process(s, b, cfg).0.db.links)
  {
    AddedAgrees(s.db.links, b, g);
  }

  /** The loop of `run`: each request is answered by the next fetch, whatever block it brings. */
  ghost function Run(g: Ledger, s: State, num: nat, hash: Option<string>, fetches: seq<Fetch>, cfg: Config)
    : (r: (State, Stop))
    requires Acyclic(g) && LinksAgree(g, s.db.links) && SoundFetches(g, fetches)
    decreases |fetches|
  {
    if fetches == [] then (s, Waiting(num, hash)) else
      match fetches[0]
      case Failed => (s, FetchError)
      case Skipped =>
        if hash.Some? then (s, SkippedByHash) else Run(g, s, num + 1, None, fetches[1..], cfg)
      case Got(b) =>
        ProcessAgrees(g, s, b, cfg);
        var (s', out) := Process(s, b, cfg);
        if out.Next? then Run(g, s', out.num, out.hash, fetches[1..], cfg) else (s', Stopped(out))
  }

  /** What the answer `f` makes of a run that stood at `now`: one that ended stays ended, a skip asks for the next. */
  ghost predicate Answered(g: Ledger, now: (State, Stop), f: Fetch, cfg: Config, next: (State, Stop)) {
    if !now.1.Waiting? then next == now else
      match f
      case Failed => next == (now.0, FetchError)
      case Skipped => next == (now.0, if now.1.hash.Some? then SkippedByHash else Waiting(now.1.num + 1, None))
      case Got(b) =>
        && LinksAgree(g, now.0.db.links) && WellLinked(AddLink(now.0.db.links, b))
        && var (s', out) := Process(now.0, b, cfg);
           next == (s', if out.Next? then Waiting(out.num, out.hash) else Stopped(out))
  }

  lemma RunFirst(g: Ledger, s: State, num: nat, hash: Option<string>, f: Fetch, cfg: Config)
    requires Acyclic(g) && LinksAgree(g, s.db.links) && SoundFetches(g, [f])
    ensures Answered(g, (s, Waiting(num, hash)), f, cfg, Run(g, s, num, hash, [f], cfg))
  {
    if f.Got? {
      assert [f][0] == f;
      ProcessAgrees(g, s, f.blk, cfg);
    }
  }

  lemma OneMoreFetch(g: Ledger, fetches: seq<Fetch>, f: Fetch)
    requires SoundFetches(g, fetches + [f])
    ensures SoundFetches(g, fetches) && SoundFetches(g, [f])
    ensures fetches != [] ==> (fetches + [f])[0] == fetches[0] && (fetches + [f])[1..] == fetches[1..] + [f]
  {
    assert forall i | 0 <= i < |fetches| :: (fetches + [f])[i] == fetches[i];
    assert (fetches + [f])[|fetches|] == f;
  }

  /** One more answer after a run. */
  lemma {:induction false} RunOneMore(g: Ledger, s: State, num: nat, hash: Option<string>, fetches: seq<Fetch>,
                                      f: Fetch, cfg: Config)
    requires Acyclic(g) && LinksAgree(g, s.db.links) && SoundFetches(g, fetches + [f])
    ensures SoundFetches(g, fetches)
    ensures Answered(g, Run(g, s, num, hash, fetches, cfg), f, cfg, Run(g, s, num, hash, fetches + [f], cfg))
    decreases |fetches|
  {
    OneMoreFetch(g, fetches, f);
    if fetches == [] {
      assert fetches + [f] == [f];
      RunFirst(g, s, num, hash, f, cfg);
    } else {
      var rest := fetches[1..];
      match fetches[0]
      case Failed =>
      case Skipped =>
        if hash.None? {
          RunOneMore(g, s, num + 1, None, rest, f, cfg);
        }
      case Got(b) =>
        ProcessAgrees(g, s, b, cfg);
        var r := Process(s, b, cfg);
        if r.1.Next? {
          RunOneMore(g, r.0, r.1.num, r.1.hash, rest, f, cfg);
        }
    }
  }

  // ---- where a run starts

  /** The links rebuilt from the saved blocks; their parent numbers are not saved. */
  function RestoreLinks(blocks: seq<SavedBlock>): (r: Links)
    ensures forall id | id in r :: r[id].id == id
    ensures r.Keys == SavedIds(blocks)
  {
    if blocks == [] then map[] else
      var x := blocks[|blocks| - 1];
      assert blocks == blocks[..|blocks| - 1] + [x];
      AddLink(RestoreLinks(blocks[..|blocks| - 1]), Block(x.id, x.num, x.prevId, 0, 0))
  }

  function SavedIds(blocks: seq<SavedBlock>): set<string> {
    set x | x in blocks :: x.id
  }

  function InitState(start: Ref, file: Option<StateFile>): (State, nat) {
    match file
    case None => (State(Db(map[], {}, start), START, [], None), start.num)
    case Some(sf) =>
      var links := RestoreLinks(sf.blocks);
      (State(Db(links, links.Keys, sf.lib), START, [], file), sf.lastFired.num)
  }

  function FreshEnv(g: Ledger, gate: nat, start: Ref): Env {
    Env(g, gate, start.id, {})
  }

  function RestoredEnv(g: Ledger, gate: nat, sf: StateFile): Env {
    Env(g, gate, sf.lib.id, SavedIds(sf.blocks))
  }

  /** The cursor file tells the truth about the chain. */
  ghost predicate Truthful(g: Ledger, sf: StateFile) {
    && g.num(sf.lib.id) == sf.lib.num
    && forall x | x in sf.blocks :: x.id != "" && x.num == g.num(x.id) && x.prevId == g.parent(x.id)
  }

  lemma {:induction false} RestoreAgrees(g: Ledger, blocks: seq<SavedBlock>)
    requires forall x | x in blocks :: x.id != "" && x.num == g.num(x.id) && x.prevId == g.parent(x.id)
    ensures LinksAgree(g, RestoreLinks(blocks))
  {
    if blocks != [] {
      RestoreAgrees(g, blocks[..|blocks| - 1]);
    }
  }

  lemma FreshStart(g: Ledger, gate: nat, start: Ref)
    requires Acyclic(g) && g.num(start.id) == start.num
    ensures Inv(InitState(start, None).0, FreshEnv(g, gate, start))
  {
  }

  /** A restored fork database satisfies the invariant, with every restored block flagged as fired. */
  lemma RestoredStart(g: Ledger, gate: nat, start: Ref, sf: StateFile)
    requires Acyclic(g) && Truthful(g, sf)
    ensures Inv(InitState(start, Some(sf)).0, RestoredEnv(g, gate, sf))
    ensures InitState(start, Some(sf)).0.db.fired == SavedIds(sf.blocks)
    ensures InitState(start, Some(sf)).0.db.lib == sf.lib
  {
    RestoreAgrees(g, sf.blocks);
    AgreeingIsWellLinked(g, RestoreLinks(sf.blocks));
  }

  // ---- every run

  /**
   Over every run, however it ends, with any forks and any wrong answers of the fetcher, the
   invariant is kept, so what is handed over stays safe, and the nil-segment and empty-segment panics are never reached.
   */
  lemma {:induction false} RunKeeps(s: State, num: nat, hash: Option<string>, fetches: seq<Fetch>, cfg: Config, e: Env)
    requires cfg.gate == e.gate && Inv(s, e) && SoundFetches(e.g, fetches)
    ensures var r := Run(e.g, s, num, hash, fetches, cfg);
            && Inv(r.0, e) && s.log <= r.0.log
            && r.1 != Stopped(NilSegment) && r.1 != Stopped(EmptySegment)
    decreases |fetches|
  {
    if fetches != [] {
      match fetches[0]
      case Failed =>
      case Skipped =>
        if hash.None? {
          RunKeeps(s, num + 1, None, fetches[1..], cfg, e);
        }
      case Got(b) =>
        ProcessKeeps(s, b, cfg, e);
        var r := Process(s, b, cfg);
        if r.1.Next? {
          RunKeeps(r.0, r.1.num, r.1.hash, fetches[1..], cfg, e);
        }
    }
  }

  /** What `Safe` says of each position: the order of parents, and that no id comes twice. */
  lemma {:induction false} SafeAt(log: seq<Block>, i: nat, e: Env)
    requires Safe(log, e) && i < |log|
    ensures Fits(log[..i], log[i], e)
  {
    var k := |log| - 1;
    if i < k {
      SafeAt(log[..k], i, e);
      assert log[..k][..i] == log[..i];
    }
  }

  lemma SafeNeverTwice(log: seq<Block>, i: nat, j: nat, e: Env)
    requires Safe(log, e) && i < j < |log|
    ensures log[i].id != log[j].id && log[j].id !in e.restored
  {
    SafeAt(log, j, e);
    assert log[i] in log[..j];
  }

  /**
   In one run no block is handed over twice or from below the start gate, and each comes
   after its parent, unless the parent lies below the gate; only the start block and its
   children are excused.
   */
  lemma EveryFreshRun(g: Ledger, start: Ref, fetches: seq<Fetch>, cfg: Config)
    requires Acyclic(g) && g.num(start.id) == start.num && SoundFetches(g, fetches)
    ensures var (s, stop) := Run(g, InitState(start, None).0, start.num, None, fetches, cfg);
            && (forall i, j | 0 <= i < j < |s.log| :: s.log[i].id != s.log[j].id)
            && (forall i | 0 <= i < |s.log| :: cfg.gate <= s.log[i].num)
            && (forall i | 0 <= i < |s.log| ::
                  || s.log[i].parentId in Ids(s.log[..i])
                  || g.num(s.log[i].parentId) < cfg.gate
                  || s.log[i].id == start.id || s.log[i].parentId == start.id)
            && stop != Stopped(NilSegment) && stop != Stopped(EmptySegment)
  {
    var e := FreshEnv(g, cfg.gate, start);
    FreshStart(g, cfg.gate, start);
    RunKeeps(InitState(start, None).0, start.num, None, fetches, cfg, e);
    var log := Run(g, InitState(start, None).0, start.num, None, fetches, cfg).0.log;
    forall i, j | 0 <= i < j < |log|
      ensures log[i].id != log[j].id
    {
      SafeNeverTwice(log, i, j, e);
    }
    forall i | 0 <= i < |log|
      ensures Fits(log[..i], log[i], e)
    {
      SafeAt(log, i, e);
    }
  }

  /**
   The first block of a fresh run is handed over when it is the start block or a child of
   it. So a start number that is skipped on its second fetch lets a child go out alone,
   which is why `EveryFreshRun` excuses the children of the start block; `FreshRunInOrder`
   says exactly when the excuse is needed.
   */
  lemma FirstBlock(g: Ledger, start: Ref, b: Block, cfg: Config)
    requires Acyclic(g) && Sound(g, b) && start.num <= b.num && cfg.gate <= b.num && cfg.accepts(b)
    requires b.id == start.id || b.parentId == start.id
    ensures WellLinked(AddLink(map[], b))
    ensures var (s, out) := Process(InitState(start, None).0, b, cfg);
            s.log == [b] && out == Next(b.num + 1, None)
  {
    var s0 := InitState(start, None).0;
    AddedAgrees(s0.db.links, b, g);
    var s1 := Arrive(s0, b);
    WalkOfOne(s1.db.links, b);
    DueOfOne(s1.db.links, b, cfg);
    FireAndSaveShape(s1.(cur := Connected(s1.cur)), b, [b.id], cfg, [b], 1);
  }

  lemma WalkOfOne(links: Links, b: Block)
    requires links == map[b.id := b] && WellLinked(links)
    ensures Walk(links, b.id) == [b.id] && Root(links, b.id) == b.parentId
  {
    assert AboveParent(links, b.id);
    assert Walk(links, b.parentId) == [];
  }

  lemma DueOfOne(links: Links, b: Block, cfg: Config)
    requires links == map[b.id := b] && cfg.gate <= b.num && cfg.accepts(b)
    ensures Due(links, {}, cfg.gate, [b.id]) == [b] && Taken(cfg.accepts, [b]) == 1
    ensures [] + [b][..1] == [b]
  {
    assert Due(links, {}, cfg.gate, [b.id][..0]) == [];
    assert Taken(cfg.accepts, [b][1..]) == 0;
  }

  // ---- when parents come first without exception but the start block itself

  ghost predicate InOrder(g: Ledger, start: Ref, gate: nat, log: seq<Block>) {
    forall i | 0 <= i < |log| ::
      log[i].id == start.id || log[i].parentId in Ids(log[..i]) || g.num(log[i].parentId) < gate
  }

  lemma {:induction false} FirstDue(links: Links, fired: set<string>, gate: nat, seg: seq<string>)
    requires forall i | 0 <= i < |seg| :: seg[i] in links
    requires seg != [] && IsDue(links[seg[0]], fired, gate)
    ensures Due(links, fired, gate, seg) != [] && Due(links, fired, gate, seg)[0] == links[seg[0]]
  {
    if |seg| > 1 {
      FirstDue(links, fired, gate, seg[..|seg| - 1]);
    } else {
      assert Due(links, fired, gate, seg[..0]) == [];
    }
  }

  /** While nothing was handed over, whatever is at the bottom of a connected segment is due, and near the start. */
  lemma BottomGoesFirst(db: Db, tip: string, e: Env)
    requires DbInv(db, e) && WellLinked(db.links) && Reaches(db.links, tip, db.lib.id)
    requires db.fired == {} && e.gate <= db.lib.num
    ensures var due := Due(db.links, db.fired, e.gate, Walk(db.links, tip));
            due != [] ==> due[0].id == e.anchor || due[0].parentId == e.anchor
  {
    var seg := Walk(db.links, tip);
    if seg != [] {
      assert IsDue(db.links[seg[0]], db.fired, e.gate);
      FirstDue(db.links, db.fired, e.gate, seg);
      BottomIsAnchored(db, tip, e);
      assert Agrees(e.g, db.links[seg[0]]);
    }
  }

  lemma FirstOfStep(s: State, b: Block, cfg: Config, e: Env)
    requires cfg.gate == e.gate <= s.db.lib.num && Inv(s, e) && Sound(e.g, b) && e.restored == {} && s.log == []
    requires WellLinked(AddLink(s.db.links, b))
    ensures var s' := Process(s, b, cfg).0;
            && e.gate <= s'.db.lib.num
            && (s'.log != [] ==> s'.log[0].id == e.anchor || s'.log[0].parentId == e.anchor)
  {
    if s.db.lib.num <= b.num {
      ArriveKeeps(s, b, e);
      var s1 := Arrive(s, b);
      var tip := SegmentRef(s1.cur).value.id;
      if Reaches(s1.db.links, tip, s1.db.lib.id) {
        NothingFired(s1, e);
        BottomGoesFirst(s1.db, tip, e);
        FirstOfFire(s1.(cur := Connected(s1.cur)), b, tip, cfg);
      }
    }
  }

  lemma NothingFired(s: State, e: Env)
    requires Accounted(s.db, s.log, e) && e.restored == {} && s.log == []
    ensures s.db.fired == {}
  {
    assert forall id | id in s.db.fired :: id in Ids(s.log);
  }

  lemma FirstOfFire(s: State, b: Block, tip: string, cfg: Config)
    requires WellLinked(s.db.links) && tip in s.db.links && s.log == []
    ensures var s' := FireAndSave(s, b, Walk(s.db.links, tip), cfg).0;
            && s.db.lib.num <= s'.db.lib.num
            && (s'.log != [] ==>
                  Due(s.db.links, s.db.fired, cfg.gate, Walk(s.db.links, tip)) != []
                  && s'.log[0] == Due(s.db.links, s.db.fired, cfg.gate, Walk(s.db.links, tip))[0])
  {
    var seg := Walk(s.db.links, tip);
    var due := Due(s.db.links, s.db.fired, cfg.gate, seg);
    FireAndSaveShape(s, b, seg, cfg, due, Taken(cfg.accepts, due));
  }

  /** Over every run, the first block handed over is the one the run started on or a child of it. */
  lemma {:induction false} FirstHandedOver(s: State, num: nat, hash: Option<string>, fetches: seq<Fetch>,
                                           cfg: Config, e: Env)
    requires cfg.gate == e.gate <= s.db.lib.num && Inv(s, e) && SoundFetches(e.g, fetches)
    requires e.restored == {} && s.log == []
    ensures var log := Run(e.g, s, num, hash, fetches, cfg).0.log;
            log != [] ==> log[0].id == e.anchor || log[0].parentId == e.anchor
    decreases |fetches|
  {
    if fetches != [] {
      match fetches[0]
      case Failed =>
      case Skipped =>
        if hash.None? {
          FirstHandedOver(s, num + 1, None, fetches[1..], cfg, e);
        }
      case Got(b) =>
        ProcessKeeps(s, b, cfg, e);
        FirstOfStep(s, b, cfg, e);
        var r := Process(s, b, cfg);
        if r.1.Next? {
          RunKeeps(r.0, r.1.num, r.1.hash, fetches[1..], cfg, e);
          if r.0.log == [] {
            FirstHandedOver(r.0, r.1.num, r.1.hash, fetches[1..], cfg, e);
          }
        }
    }
  }

  /**
   Over every fresh run parents come first, but for the start block's own, if and only if the
   first block handed over, if any, is the start block. The start block is not below the gate:
   it is looked for from the gate upwards.
   */
  lemma FreshRunInOrder(g: Ledger, start: Ref, fetches: seq<Fetch>, cfg: Config)
    requires Acyclic(g) && g.num(start.id) == start.num && SoundFetches(g, fetches) && cfg.gate <= start.num
    ensures var log := Run(g, InitState(start, None).0, start.num, None, fetches, cfg).0.log;
            InOrder(g, start, cfg.gate, log) <==> log == [] || log[0].id == start.id
  {
    var e := FreshEnv(g, cfg.gate, start);
    var log := Run(g, InitState(start, None).0, start.num, None, fetches, cfg).0.log;
    FreshStart(g, cfg.gate, start);
    FirstHandedOver(InitState(start, None).0, start.num, None, fetches, cfg, e);
    EveryFreshRun(g, start, fetches, cfg);
    if log != [] {
      assert log[..0] == [];
      if log[0].id == start.id {
        forall i | 0 <= i < |log|
          ensures i == 0 || log[0] in log[..i]
        {
          assert i > 0 ==> log[..i][0] == log[0];
        }
      } else {
        assert log[0].parentId !in Ids(log[..0]) && g.num(log[0].parentId) == start.num;
      }
    }
  }

  /**
   So when the first fetch brings the start block or a child of it, parents come first if and
   only if it brings the start block.
   */
  lemma FirstFetchDecides(g: Ledger, start: Ref, b: Block, rest: seq<Fetch>, cfg: Config)
    requires Acyclic(g) && g.num(start.id) == start.num && Sound(g, b) && SoundFetches(g, [Got(b)] + rest)
    requires cfg.gate <= start.num <= b.num && cfg.accepts(b) && (b.id == start.id || b.parentId == start.id)
    ensures var log := Run(g, InitState(start, None).0, start.num, None, [Got(b)] + rest, cfg).0.log;
            InOrder(g, start, cfg.gate, log) <==> b.id == start.id
  {
    RestIsSound(g, b, rest);
    FreshRunInOrder(g, start, [Got(b)] + rest, cfg);
    FirstComesFirst(g, start, b, rest, cfg);
  }

  lemma RestIsSound(g: Ledger, b: Block, rest: seq<Fetch>)
    requires SoundFetches(g, [Got(b)] + rest)
    ensures SoundFetches(g, rest)
  {
    var fetches := [Got(b)] + rest;
    assert forall i | 0 <= i < |rest| :: rest[i] == fetches[i + 1];
  }

  /** Once the first fetch brings the start block, every later block comes after its own parent. */
  lemma EveryRunFromItsStart(g: Ledger, start: Ref, b: Block, rest: seq<Fetch>, cfg: Config)
    requires Acyclic(g) && Sound(g, b) && RefOf(b) == start && cfg.gate <= b.num && cfg.accepts(b)
    requires SoundFetches(g, [Got(b)] + rest)
    ensures var log := Run(g, InitState(start, None).0, start.num, None, [Got(b)] + rest, cfg).0.log;
            log != [] && log[0] == b &&
            forall i | 0 < i < |log| ::
              log[i].parentId in Ids(log[..i]) || g.num(log[i].parentId) < cfg.gate
  {
    var fetches := [Got(b)] + rest;
    RestIsSound(g, b, rest);
    EveryFreshRun(g, start, fetches, cfg);
    var log := Run(g, InitState(start, None).0, start.num, None, fetches, cfg).0.log;
    FirstComesFirst(g, start, b, rest, cfg);
    forall i | 0 < i < |log|
      ensures log[i].parentId in Ids(log[..i]) || g.num(log[i].parentId) < cfg.gate
    {
      assert log[0] in log[..i];
      assert log[0].id != log[i].id;
    }
  }

  /** The start block or a child of it is handed over at once and leaves the poller in good order. */
  lemma FirstStep(g: Ledger, start: Ref, b: Block, cfg: Config)
    requires Acyclic(g) && g.num(start.id) == start.num && Sound(g, b) && cfg.gate <= b.num && cfg.accepts(b)
    requires start.num <= b.num && (b.id == start.id || b.parentId == start.id)
    ensures WellLinked(AddLink(map[], b))
    ensures var (s, out) := Process(InitState(start, None).0, b, cfg);
            s.log == [b] && out == Next(b.num + 1, None) && Inv(s, FreshEnv(g, cfg.gate, start))
  {
    FirstBlock(g, start, b, cfg);
    FreshStart(g, cfg.gate, start);
    ProcessKeeps(InitState(start, None).0, b, cfg, FreshEnv(g, cfg.gate, start));
  }

  lemma FirstComesFirst(g: Ledger, start: Ref, b: Block, rest: seq<Fetch>, cfg: Config)
    requires Acyclic(g) && g.num(start.id) == start.num && Sound(g, b) && cfg.gate <= b.num && cfg.accepts(b)
    requires start.num <= b.num && (b.id == start.id || b.parentId == start.id)
    requires SoundFetches(g, rest) && SoundFetches(g, [Got(b)] + rest)
    ensures [b] <= Run(g, InitState(start, None).0, start.num, None, [Got(b)] + rest, cfg).0.log
  {
    var fetches := [Got(b)] + rest;
    var s0 := InitState(start, None).0;
    FirstStep(g, start, b, cfg);
    ProcessAgrees(g, s0, b, cfg);
    assert fetches[1..] == rest;
    RunKeeps(Process(s0, b, cfg).0, b.num + 1, None, rest, cfg, FreshEnv(g, cfg.gate, start));
  }
}
