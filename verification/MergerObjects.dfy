/** The bundler and the merged-blocks store as objects, tied to the functions on values. */
module MergerObjects {
  import opened Options
  import opened Multiples
  import opened Bundler
  import opened Partition
  import opened MergerForks
  import opened MergerProtocol

  class MergedStore {
    const size: nat
    var bundles: map<nat, Files>

    constructor (size: nat)
      ensures this.size == size && bundles == map[]
    {
      this.size := size;
      bundles := map[];
    }

    /** Writes one bundle without the blocks below its base; an empty list is an error. */
    method MergeAndStore(base: nat, blocks: Files) returns (ok: bool)
      modifies this
      ensures ok == (blocks != [])
      ensures bundles == if ok then old(bundles)[base := From(blocks, base)] else old(bundles)
    {
      if blocks == [] {
        return false;
      }
      var filtered: Files := [];
      for i := 0 to |blocks|
        invariant filtered == From(blocks[..i], base) && bundles == old(bundles)
      {
        FromAppend(blocks[..i], blocks[i], base);
        assert blocks[..i + 1] == blocks[..i] + [blocks[i]];
        if base <= blocks[i].num {
          filtered := filtered + [blocks[i]];
        }
      }
      assert blocks[..|blocks|] == blocks;
      bundles := bundles[base := filtered];
      ok := true;
    }

    /**
     Walks the stored bundle numbers from `lowest` in rising order. The base found is the
     first boundary with no bundle; a bundle beyond it is a hole.
     */
    method NextBundle(lowest: nat, listing: seq<nat>) returns (base: nat, last: Option<nat>, hole: bool)
      requires 0 < size
      requires forall i, j | 0 <= i < j < |listing| :: listing[i] < listing[j]
      requires forall k :: k in listing <==> k in bundles && lowest <= k
      ensures lowest <= base && base % size == lowest % size
      ensures (forall k: nat | k in bundles && lowest <= k :: k % size == lowest % size) ==> base !in bundles
      ensures forall k: nat | lowest <= k < base && k % size == lowest % size :: k in bundles
      ensures hole <==> exists k :: k in bundles && lowest <= k && !(k < base && k % size == lowest % size)
      ensures last == if base == lowest then None else Some(base - size)
    {
      base, last, hole := lowest, None, false;
      for i := 0 to |listing|
        invariant lowest <= base && base % size == lowest % size && !hole
        invariant 0 < i ==> base == listing[i - 1] + size
        invariant i == 0 ==> base == lowest
        invariant last == if base == lowest then None else Some(base - size)
        invariant forall j | 0 <= j < i :: listing[j] < base && listing[j] % size == lowest % size
        invariant forall k: nat | lowest <= k < base && k % size == lowest % size :: k in bundles
      {
        assert listing[i] in listing;
        if listing[i] != base {
          OffTheGrid(listing, i, lowest, base, size);
          hole := true;
          return;
        }
        NextMultiple(base, size);
        forall k: nat | base <= k < base + size && k % size == lowest % size
          ensures k == base
        {
          SameResidue(base, k, size);
        }
        base, last := base + size, Some(listing[i]);
      }
      assert base !in listing;
    }

    /** The last block of a stored bundle; reading an empty one is a crash. */
    method ReadLastBlock(base: nat) returns (r: Option<OneBlockFile>)
      requires base in bundles
      ensures r == if bundles[base] == [] then None else Some(bundles[base][|bundles[base]| - 1])
    {
      r := None;
      for i := 0 to |bundles[base]|
        invariant r == if i == 0 then None else Some(bundles[base][i - 1])
      {
        r := Some(bundles[base][i]);
      }
    }
  }

  /** A store running in the background; it holds the inProcess lock until it is done. */
  datatype Merge = Merge(job: Job, forks: Files)

  // ---- a run, on values

  /** What one round of the run changes: the bundler, its settled store, the forks listed, the files seen. */
  datatype Round = Round(core: Core, store: map<nat, Files>, listed: Files, seen: map<string, OneBlockFile>)

  /** The contract of one call, on values. */
  ghost predicate OneBlock(r: Round, r': Round, f: OneBlockFile, cfg: Config, o: Outcome)
    requires 0 < cfg.size
  {
    && (r'.core, o) == (Accept(r.core, f, cfg).0, Accept(r.core, f, cfg).2)
    && r'.store == StoreJobs(r.store, Accept(r.core, f, cfg).1)
    && (if Closes(o) then
          && r.listed <= r'.listed
          && Split(r.seen, Names(r.core.irr), r.core.base + cfg.size, r'.seen, r'.listed[|r.listed|..])
        else r'.listed == r.listed && (o.NothingPending? || r'.seen == r.seen))
  }

  ghost predicate Fed(start: Round, r: Round, files: Files, fed: nat, cfg: Config, jobs: seq<Job>, n: nat,
                      out: Outcome, books: Books)
    requires 0 < cfg.size && fed <= |files| && n <= fed
  {
    && start.core.irr == [] && start.core.base % cfg.size == 0 && Rising(files) && Keyed(start.seen)
    && (r.core, jobs, n, out) == Bundler.Feed(start.core, files[..fed], cfg)
    && r.store == StoreJobs(start.store, jobs)
    && (!out.NothingPending? ==>
          && start.listed <= r.listed
          && InOrder(books, start.seen, r.seen, r.listed[|start.listed|..],
                     From(files[..n], start.core.base), start.core.base, r.core, cfg.size))
  }

  lemma NothingFed(r: Round, files: Files, cfg: Config)
    requires 0 < cfg.size && r.core.irr == [] && r.core.base % cfg.size == 0 && Rising(files) && Keyed(r.seen)
    ensures Fed(r, r, files, 0, cfg, [], 0, Ignored, Books(0, 0))
  {
    assert files[..0] == [] && r.listed[|r.listed|..] == [];
  }

  lemma FedNext(start: Round, r: Round, r': Round, files: Files, fed: nat, cfg: Config, jobs: seq<Job>,
                out: Outcome, books: Books, o: Outcome)
    requires 0 < cfg.size && fed < |files| && GoesOn(out) && Fed(start, r, files, fed, cfg, jobs, fed, out, books)
    requires OneBlock(r, r', files[fed], cfg, o)
    ensures Fed(start, r', files, fed + 1, cfg, jobs + Accept(r.core, files[fed], cfg).1,
                if o.NotOnBoundary? || o.NothingPending? then fed else fed + 1, o,
                BooksAfter(books, r.core, From(files[..fed], start.core.base), o, cfg.size))
  {
    assert files[..fed + 1][..fed] == files[..fed];
    StoreBoth(start.store, jobs, Accept(r.core, files[fed], cfg).1);
    if !o.NothingPending? {
      BooksFed(start, r, r', files, fed, cfg, jobs, out, books, o);
    }
  }

  lemma BooksFed(start: Round, r: Round, r': Round, files: Files, fed: nat, cfg: Config, jobs: seq<Job>,
                 out: Outcome, books: Books, o: Outcome)
    requires 0 < cfg.size && fed < |files| && GoesOn(out) && Fed(start, r, files, fed, cfg, jobs, fed, out, books)
    requires OneBlock(r, r', files[fed], cfg, o) && !o.NothingPending?
    ensures start.listed <= r'.listed
    ensures InOrder(BooksAfter(books, r.core, From(files[..fed], start.core.base), o, cfg.size),
                    start.seen, r'.seen, r'.listed[|start.listed|..],
                    From(files[..if o.NotOnBoundary? then fed else fed + 1], start.core.base), start.core.base,
                    r'.core, cfg.size)
  {
    var base0 := start.core.base;
    var forks, more := r.listed[|start.listed|..], r'.listed[|r.listed|..];
    ListedOn(start.listed, r.listed, r'.listed);
    FedPartition(base0, start.core.enforce, files, fed, cfg, r.core, jobs, fed, out);
    BooksNext(books, start.seen, r.seen, r'.seen, forks, more, r.core, jobs, files, fed, base0, cfg, r'.core, o);
  }

  lemma ListedOn(a: Files, b: Files, c: Files)
    requires a <= b <= c
    ensures a <= c && c[|a|..] == b[|a|..] + c[|b|..]
  {
  }

  lemma AllStored(start: Round, r: Round, files: Files, fed: nat, cfg: Config, jobs: seq<Job>, n: nat, out: Outcome,
                  books: Books)
    requires 0 < cfg.size && n <= fed <= |files| && Fed(start, r, files, fed, cfg, jobs, n, out, books)
    ensures forall k | start.core.base <= k < r.core.base && k % cfg.size == 0 ::
              k in r.store && r.store[k] == Stored(From(files[..n], start.core.base), k, cfg.size)
  {
    var base0 := start.core.base;
    FedPartition(base0, start.core.enforce, files, fed, cfg, r.core, jobs, n, out);
    forall k | base0 <= k < r.core.base && k % cfg.size == 0
      ensures k in r.store && r.store[k] == Stored(From(files[..n], base0), k, cfg.size)
    {
      StoredAt(start.store, jobs, From(files[..n], base0), r.core, base0, cfg.size, k);
    }
  }

  class MergerBundler {
    const cfg: Config
    const io: MergedStore
    var base: nat
    var irr: Files
    var enforce: bool
    var seen: map<string, OneBlockFile>
    var inProcess: Option<Merge>
    var moved: Files

    ghost function State(): Core
      reads this
    {
      Core(base, irr, enforce)
    }

    ghost predicate Valid()
      reads this
    {
      0 < cfg.size && Keyed(seen) && (inProcess.Some? ==> inProcess.value.job.blocks != [])
    }

    /** What the store holds once the store in progress is done. */
    ghost function Settled(): map<nat, Files>
      reads this, io
    {
      if inProcess.None? then io.bundles else
        var j := inProcess.value.job;
        io.bundles[j.base := From(j.blocks, j.base)]
    }

    /** The forks handed over to be moved, in order, those of a store in progress included. */
    ghost function Listed(): Files
      reads `moved, `inProcess
    {
      moved + if inProcess.Some? then inProcess.value.forks else []
    }

    ghost function Here(): Round
      reads this, io
    {
      Round(State(), Settled(), Listed(), seen)
    }

    constructor (start: nat, cfg: Config, io: MergedStore)
      requires 0 < cfg.size
      ensures Valid() && this.cfg == cfg && this.io == io
      ensures State() == Core(ToBase(start, cfg.size), [], true)
      ensures inProcess.None? && seen == map[] && moved == []
    {
      this.cfg, this.io := cfg, io;
      base, irr, enforce := ToBase(start, cfg.size), [], true;
      seen, inProcess, moved := map[], None, [];
    }

    /** Resumes at another base; a known last block lifts the check of the first one. */
    method Reset(nextBase: nat, lib: Option<OneBlockFile>)
      modifies `base, `irr, `enforce
      ensures State() == Core(nextBase, [], lib.None?)
    {
      base, irr, enforce := nextBase, [], lib.None?;
    }

    /** The part of HandleBlockFile that is not the forkable's. */
    method See(f: OneBlockFile)
      requires Valid()
      modifies `seen
      ensures Valid() && seen == old(seen)[f.name := f]
    {
      seen := seen[f.name := f];
    }

    /** The background store completes: the bundle is written, then its forks are moved. */
    method Complete()
      requires Valid() && inProcess.Some?
      modifies this`inProcess, this`moved, io
      ensures Valid() && inProcess.None? && io.bundles == old(Settled())
      ensures moved == old(Listed())
    {
      var m := inProcess.value;
      var ok := io.MergeAndStore(m.job.base, m.job.blocks);
      if ok {
        moved := moved + m.forks;
      }
      inProcess := None;
    }

    method Lock()
      requires Valid()
      modifies this`inProcess, this`moved, io
      ensures Valid() && inProcess.None? && io.bundles == old(Settled())
      ensures moved == old(Listed())
    {
      if inProcess.Some? {
        Complete();
      }
    }

    /** Read under the lock: whatever lies below the base returned is in the store. */
    method BaseBlockNum() returns (b: nat)
      requires Valid()
      modifies this`inProcess, this`moved, io
      ensures Valid() && inProcess.None? && io.bundles == old(Settled()) && b == base
      ensures moved == old(Listed())
    {
      Lock();
      b := base;
    }

    /**
     Splits the seen files when a bundle closes: an irreversible file is forgotten, any other
     one below the upper boundary is returned as a fork, and the rest stays. A file below the
     base counts as a fork too, though the code means only to clean it up.
     */
    method ForkedBlocksInCurrentBundle() returns (out: Files)
      requires Valid()
      modifies `seen
      ensures Valid() && Split(old(seen), Names(irr), base + cfg.size, seen, out)
    {
      ForgetIrreversible();
      ghost var left := seen;
      var high := base + cfg.size;
      out := [];
      var names := seen.Keys;
      while names != {}
        invariant Sifted(seen, out, left, names, high)
        decreases names
      {
        var name :| name in names;
        SiftOne(seen, out, left, names, high, name);
        names := names - {name};
        var block := seen[name];
        if block.num < base {
          seen := seen - {name};
        }
        if block.num < high {
          out := out + [block];
          seen := seen - {name};
        }
      }
    }

    method ForgetIrreversible()
      requires Valid()
      modifies `seen
      ensures Valid() && seen == old(seen) - Names(irr)
    {
      for i := 0 to |irr|
        invariant seen == old(seen) - Names(irr[..i])
      {
        assert irr[..i + 1] == irr[..i] + [irr[i]];
        assert Names(irr[..i + 1]) == Names(irr[..i]) + {irr[i].name};
        seen := seen - {irr[i].name};
      }
      assert irr[..|irr|] == irr;
    }

    /**
     One irreversible block: the state moves as Accept says, and every job it starts reaches the
     store. When that closes a bundle, the forks below its upper boundary are handed over to be
     moved, and its store stays in progress unless a bundle was skipped, which waits for it;
     otherwise the seen files and the forks stay as they are.
     */
    method ProcessBlock(f: OneBlockFile) returns (out: Outcome)
      requires Valid()
      modifies this, io
      ensures Valid() && (State(), out) == (Accept(old(State()), f, cfg).0, Accept(old(State()), f, cfg).2)
      ensures Settled() == StoreJobs(old(Settled()), Accept(old(State()), f, cfg).1)
      ensures Closes(out) ==>
                && old(Listed()) <= Listed()
                && Split(old(seen), Names(old(irr)), old(base) + cfg.size, seen, Listed()[|old(Listed())|..])
                && (inProcess.Some? <==> base == old(base) + cfg.size)
      ensures !Closes(out) ==> Listed() == old(Listed()) && (out.NothingPending? || seen == old(seen))
    {
      if f.num < base {
        return Ignored;
      }
      if enforce {
        if f.num != base && f.num != cfg.first {
          return NotOnBoundary;
        }
        enforce := false;
      }
      if f.num < base + cfg.size {
        irr := irr + [f];
        return Held;
      }
      out := Close(f);
    }

    /** The part for a block beyond the current bundle. */
    method Close(f: OneBlockFile) returns (out: Outcome)
      requires Valid() && base + cfg.size <= f.num && !enforce
      modifies this, io
      ensures Valid() && (State(), out) == (Accept(old(State()), f, cfg).0, Accept(old(State()), f, cfg).2)
      ensures Settled() == StoreJobs(old(Settled()), Accept(old(State()), f, cfg).1)
      ensures Closes(out) ==>
                && old(Listed()) <= Listed()
                && Split(old(seen), Names(old(irr)), old(base) + cfg.size, seen, Listed()[|old(Listed())|..])
                && (inProcess.Some? <==> base == old(base) + cfg.size)
      ensures !Closes(out) ==> out.NothingPending? && Listed() == old(Listed())
    {
      var forks := ForkedBlocksInCurrentBundle();
      if irr == [] {
        return NothingPending;
      }
      CloseBundle(f, forks);
      out := if cfg.stop != 0 && cfg.stop <= base then StopReached else Bundled;
    }

    /** Hands the pending bundle over, then stores the empty ones up to the block `f`. */
    method CloseBundle(f: OneBlockFile, forks: Files)
      requires Valid() && irr != [] && base + cfg.size <= f.num
      modifies `base, `irr, `inProcess, `moved, io
      ensures Valid() && Listed() == old(Listed()) + forks
      ensures inProcess.Some? <==> base == old(base) + cfg.size
      ensures irr == [old(irr)[|old(irr)| - 1], f]
      ensures base == SkipTo(old(base) + cfg.size, f.num, old(irr)[|old(irr)| - 1], cfg.size).0
      ensures Settled() == StoreJobs(old(Settled()), [Job(old(base), old(irr))]
              + SkipTo(old(base) + cfg.size, f.num, old(irr)[|old(irr)| - 1], cfg.size).1)
    {
      Lock();
      inProcess := Some(Merge(Job(base, irr), forks));
      var last := irr[|irr| - 1];
      irr := [last, f];
      base := base + cfg.size;
      SkipBundles(f, last);
      JobsAfterOne(old(Settled()), Job(old(base), old(irr)), SkipTo(old(base) + cfg.size, f.num, last, cfg.size).1);
    }

    /** Stores the bundles between the base and the block `f`, each once the one before is done. */
    method SkipBundles(f: OneBlockFile, last: OneBlockFile)
      requires Valid()
      modifies `base, `inProcess, `moved, io
      ensures Valid() && base == SkipTo(old(base), f.num, last, cfg.size).0 && Listed() == old(Listed())
      ensures if base == old(base) then inProcess == old(inProcess) else inProcess.None?
      ensures Settled() == StoreJobs(old(Settled()), SkipTo(old(base), f.num, last, cfg.size).1)
    {
      ghost var all := SkipTo(base, f.num, last, cfg.size);
      ghost var full := StoreJobs(Settled(), all.1);
      while f.num > base + cfg.size
        invariant Valid() && SkipTo(base, f.num, last, cfg.size).0 == all.0 && Listed() == old(Listed())
        invariant old(base) <= base && if base == old(base) then inProcess == old(inProcess) else inProcess.None?
        invariant StoreJobs(Settled(), SkipTo(base, f.num, last, cfg.size).1) == full
        decreases f.num - base
      {
        Lock();
        SkipToNext(base, f.num, last, cfg.size, io.bundles);
        var ok := io.MergeAndStore(base, [last]);
        base := base + cfg.size;
      }
    }

    /** The contract of one call, on values. */
    method BundleNext(f: OneBlockFile) returns (out: Outcome)
      requires Valid()
      modifies this, io
      ensures Valid() && OneBlock(old(Here()), Here(), f, cfg, out)
    {
      out := ProcessBlock(f);
    }

    /**
     Feeds a chain until a block is refused or the stop block is reached. Once the store in
     progress is done, each boundary passed has its bundle, holding what it should, and up to the
     boundary of the last bundle closed each file seen before was an accepted block's or is listed
     once as a fork. The files of a skipped range are not: they stay until the next bundle closes.
     */
    method BundleAll(files: Files) returns (taken: nat, out: Outcome, ghost books: Books)
      requires Valid() && irr == [] && base % cfg.size == 0 && Rising(files)
      modifies this, io
      ensures Valid() && taken <= |files| && (GoesOn(out) ==> taken == |files|)
      ensures forall k | old(base) <= k < base && k % cfg.size == 0 ::
                k in Settled() && Settled()[k] == Stored(From(files[..taken], old(base)), k, cfg.size)
      ensures !out.NothingPending? ==>
                && old(Listed()) <= Listed()
                && LastClosed(From(files[..taken], old(base)), books.n, books.high, old(base), base, cfg.size)
                && Swept(old(seen), seen, Listed()[|old(Listed())|..],
                         From(files[..taken], old(base))[..books.n], books.high)
    {
      ghost var r := Here();
      ghost var start := r;
      ghost var jobs: seq<Job> := [];
      ghost var fed := 0;
      taken, out := 0, Ignored;
      books := Books(0, 0);
      NothingFed(start, files, cfg);
      while taken < |files| && GoesOn(out)
        invariant Valid() && taken <= fed <= |files| && (GoesOn(out) ==> taken == fed)
        invariant r == Here()
        invariant Fed(start, r, files, fed, cfg, jobs, taken, out, books)
        decreases |files| - taken, GoesOn(out)
      {
        fed := fed + 1;
        var o := BundleNext(files[taken]);
        FedNext(start, r, Here(), files, taken, cfg, jobs, out, books, o);
        books := BooksAfter(books, r.core, From(files[..taken], old(base)), o, cfg.size);
        jobs := jobs + Accept(r.core, files[taken], cfg).1;
        out, r := o, Here();
        if !out.NotOnBoundary? && !out.NothingPending? {
          taken := taken + 1;
        }
      }
      AllStored(start, r, files, fed, cfg, jobs, taken, out, books);
    }
  }

  /**
   One round of the pruner: it waits for the store in progress, then walks the one-block
   files and gathers those that lie more than a bundle below the base, until it has a full
   batch; the files of the last bundle stay.
   */
  method FilesToPrune(b: MergerBundler, listing: Files, batch: nat) returns (toDelete: Files, walked: nat)
    requires b.Valid() && 0 < batch
    modifies b`inProcess, b`moved, b.io
    ensures b.Valid() && b.inProcess.None? && b.io.bundles == old(b.Settled()) && walked <= |listing|
    ensures |toDelete| <= batch
    ensures forall f :: f in toDelete <==> f in listing[..walked] && f.num + b.cfg.size < b.base
    ensures b.cfg.size <= b.base ==> toDelete == Within(listing[..walked], 0, b.base - b.cfg.size)
    ensures walked == |listing| || |toDelete| == batch || b.base <= b.cfg.size
  {
    var base := b.BaseBlockNum();
    var target := PruningTarget(base, b.cfg.size);
    toDelete, walked := [], 0;
    if target == 0 {
      return;
    }
    while walked < |listing| && |toDelete| < batch
      invariant b.Valid() && b.inProcess.None? && b.io.bundles == old(b.Settled())
      invariant walked <= |listing| && |toDelete| <= batch
      invariant toDelete == Within(listing[..walked], 0, target)
    {
      assert listing[..walked + 1] == listing[..walked] + [listing[walked]];
      WithinAppend(listing[..walked], listing[walked], 0, target);
      if listing[walked].num < target {
        toDelete := toDelete + [listing[walked]];
      }
      walked := walked + 1;
    }
    forall f
      ensures f in toDelete <==> f in listing[..walked] && f.num < target
    {
      InWithin(listing[..walked], f, 0, target);
    }
  }

  /**
   One round of the merger's loop: the bundler is moved past the bundles already stored, to
   the first boundary that is missing, with the last stored block as its start. An empty last
   bundle has no such block, and reading it is a crash.
   */
  method Resume(b: MergerBundler, listing: seq<nat>) returns (found: nat, hole: bool, crashed: bool)
    requires b.Valid() && b.io.size == b.cfg.size
    requires forall i, j | 0 <= i < j < |listing| :: listing[i] < listing[j]
    requires forall k :: k in listing <==> k in b.io.bundles && b.base <= k
    modifies b`base, b`irr, b`enforce
    ensures old(b.base) <= found && found % b.cfg.size == old(b.base) % b.cfg.size
    ensures forall k: nat | old(b.base) <= k < found && k % b.cfg.size == found % b.cfg.size :: k in b.io.bundles
    ensures !hole ==> found !in b.io.bundles
    ensures found == old(b.base) ==> !crashed && b.State() == old(b.State())
    ensures found > old(b.base) ==>
              && found >= b.cfg.size && found - b.cfg.size in b.io.bundles
              && crashed == (b.io.bundles[found - b.cfg.size] == [])
              && b.State() == if crashed then old(b.State()) else Core(found, [], false)
  {
    var last;
    found, last, hole := b.io.NextBundle(b.base, listing);
    crashed := false;
    if last.Some? {
      StepBack(b.base, found, b.cfg.size);
      var lib := b.io.ReadLastBlock(last.value);
      if lib.None? {
        return found, hole, true;
      }
      b.Reset(found, lib);
    }
  }

  lemma StepBack(low: nat, high: nat, n: nat)
    requires 0 < n && low < high && low % n == high % n
    ensures low <= high - n && (high - n) % n == high % n
  {
    if high < low + n {
      SameResidue(low, high, n);
    }
    NextMultiple(high - n, n);
  }

  lemma FedPartition(base0: nat, enforce: bool, files: Files, fed: nat, cfg: Config,
                     c: Core, jobs: seq<Job>, n: nat, out: Outcome)
    requires 0 < cfg.size && base0 % cfg.size == 0 && Rising(files) && n <= fed
    requires fed <= |files| && (c, jobs, n, out) == Bundler.Feed(Core(base0, [], enforce), files[..fed], cfg)
    ensures Tracks(c, jobs, From(files[..n], base0), base0, cfg.size)
  {
    RisingPrefix(files, fed);
    EveryRunPartitions(files[..fed], base0, enforce, cfg, c, jobs, n, out);
    assert files[..fed][..n] == files[..n];
  }

  lemma StoredAt(store: map<nat, Files>, jobs: seq<Job>, rec: Files, c: Core, base0: nat, size: nat, k: nat)
    requires Tracks(c, jobs, rec, base0, size) && base0 <= k < c.base && k % size == 0
    ensures k in StoreJobs(store, jobs) && StoreJobs(store, jobs)[k] == Stored(rec, k, size)
  {
    var j := JobAt(jobs, base0, c.base, size, k);
    EachJobStored(store, jobs, base0, c.base, size);
  }

  /** A listed number other than the next base is beyond it, or lies between two boundaries. */
  lemma OffTheGrid(listing: seq<nat>, i: nat, lowest: nat, base: nat, size: nat)
    requires 0 < size && i < |listing| && lowest <= listing[i] && listing[i] != base
    requires forall j, k | 0 <= j < k < |listing| :: listing[j] < listing[k]
    requires if i == 0 then base == lowest else base == listing[i - 1] + size
    requires base % size == lowest % size
    ensures listing[i] < base ==> listing[i] % size != lowest % size
    ensures base < listing[i] ==> base !in listing
  {
    if listing[i] < base && listing[i] % size == lowest % size {
      NextMultiple(listing[i - 1], size);
      SameResidue(listing[i - 1], listing[i], size);
    }
  }
}
