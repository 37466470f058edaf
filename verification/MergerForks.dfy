/**
 What becomes of the one-block files the bundler has seen: when a bundle closes, those below its
 upper boundary are forgotten or listed as forks, and over a whole run none is lost or listed twice.
 */
module MergerForks {
  import opened Multiples
  import opened Bundler
  import opened Partition
  import opened MergerProtocol

  /** The seen files are kept under their own canonical names. */
  ghost predicate Keyed(seen: map<string, OneBlockFile>) {
    forall name | name in seen :: seen[name].name == name
  }

  function Names(files: Files): set<string> {
    set f | f in files :: f.name
  }

  /** `out` lists every file of `seen` below `hi` that is not named in `taken`, once each. */
  ghost predicate ForksOf(out: Files, seen: map<string, OneBlockFile>, taken: set<string>, hi: nat) {
    && (forall f :: f in out <==> f.name in seen && seen[f.name] == f && f.name !in taken && f.num < hi)
    && forall i, j | 0 <= i < j < |out| :: out[i].name != out[j].name
  }

  /** Midway: the names still to look at are untouched, the others are in `out` or stay. */
  ghost predicate Sifted(seen: map<string, OneBlockFile>, out: Files, left: map<string, OneBlockFile>,
                         names: set<string>, hi: nat) {
    && Keyed(left) && names <= left.Keys && ForksOf(out, left, names, hi)
    && seen.Keys <= left.Keys
    && (forall name | name in left :: name in seen <==> name in names || hi <= left[name].num)
    && forall name | name in seen :: seen[name] == left[name]
  }

  /**
   A bundle closed: the files of `before` below its upper boundary `hi` are gone, those of `taken`
   forgotten and every other one listed once as a fork; the rest is still there.
   */
  ghost predicate Split(before: map<string, OneBlockFile>, taken: set<string>, hi: nat,
                        seen: map<string, OneBlockFile>, forks: Files) {
    && ForksOf(forks, before, taken, hi)
    && (forall name :: name in seen <==> name in before && name !in taken && hi <= before[name].num)
    && forall name | name in seen :: seen[name] == before[name]
  }

  lemma SiftOne(seen: map<string, OneBlockFile>, out: Files, left: map<string, OneBlockFile>,
                names: set<string>, hi: nat, name: string)
    requires Sifted(seen, out, left, names, hi) && name in names
    ensures name in seen
    ensures if seen[name].num < hi then Sifted(seen - {name}, out + [seen[name]], left, names - {name}, hi)
            else Sifted(seen, out, left, names - {name}, hi)
  {
    var f := seen[name];
    forall i | 0 <= i < |out|
      ensures out[i].name != name
    {
      assert out[i] in out;
    }
    assert forall g :: g in out + [f] <==> g in out || g == f;
  }

  // ---- the forks over a whole run

  /**
   The last bundle closed so far: it closed after the first `n` accepted blocks, of which the last
   is in it or late, and `high` is its upper boundary. Later blocks belong to the current bundle.
   */
  ghost predicate LastClosed(rec: Files, n: nat, high: nat, base0: nat, base: nat, size: nat)
    requires 0 < size
  {
    n <= |rec| && if n == 0 then high == 0 && base == base0 else
      && n < |rec| && rec[n - 1].num <= high <= rec[n - 1].num + size && high <= base && high % size == 0
      && (rec[n - 1].num == high <==> Late(rec, n - 1, size))
      && forall j | n <= j < |rec| :: base <= rec[j].num
  }

  /**
   What became of the files seen at the start: below `high` each is an accepted block's or listed
   once as a fork, and the others are still there unless they are an accepted block's.
   */
  ghost predicate Swept(before: map<string, OneBlockFile>, seen: map<string, OneBlockFile>, forks: Files,
                        accepted: Files, high: nat) {
    && (forall i, j | 0 <= i < j < |forks| :: forks[i].name != forks[j].name)
    && (forall f | f in forks :: f.name in before && before[f.name] == f && f.num < high && f !in accepted)
    && (forall name | name in before && before[name].num < high ::
          before[name] in forks || name in Names(accepted))
    && (forall name :: name in seen <==> name in before && high <= before[name].num && name !in Names(accepted))
    && forall name | name in seen :: seen[name] == before[name]
  }

  ghost predicate PartOf(part: Files, all: Files) {
    forall f | f in part :: f in all
  }

  lemma NamesTogether(rec: Files, low: Files, irr: Files)
    requires PartOf(low, rec) && PartOf(irr, rec) && forall f | f in rec :: f in low || f in irr
    ensures Names(rec) == Names(low) + Names(irr)
  {
  }

  /** Closing a bundle over the pending blocks `irr` accounts for all files below `hi`. */
  lemma SweepClose(before: map<string, OneBlockFile>, seen: map<string, OneBlockFile>,
                   seen': map<string, OneBlockFile>, forks: Files, out: Files, rec: Files, low: Files,
                   high: nat, irr: Files, hi: nat)
    requires Keyed(before) && Swept(before, seen, forks, low, high)
    requires Split(seen, Names(irr), hi, seen', out) && high <= hi && PartOf(low, rec) && PartOf(irr, rec)
    requires forall f | f in rec :: f in low || (f in irr && high <= f.num)
    ensures Swept(before, seen', forks + out, rec, hi)
  {
    NamesTogether(rec, low, irr);
    var all := forks + out;
    forall i, j | 0 <= i < j < |all|
      ensures all[i].name != all[j].name
    {
      if i < |forks| <= j {
        assert all[i] in forks && all[j] in out;
      }
    }
    forall name | name in before && before[name].num < hi
      ensures before[name] in all || name in Names(rec)
    {
      if name in seen {
        assert seen[name].name == name;
      }
    }
  }

  /** A held block is not below the boundary, so nothing changes. */
  lemma StillClosed(rec: Files, f: OneBlockFile, n: nat, high: nat, base0: nat, base: nat, size: nat)
    requires 0 < size && LastClosed(rec, n, high, base0, base, size) && base <= f.num
    ensures LastClosed(rec + [f], n, high, base0, base, size) && (rec + [f])[..n] == rec[..n]
  {
    if n > 0 {
      LateAppend(rec, f, n - 1, size);
    }
  }

  lemma InFront(rec: Files, i: nat, n: nat)
    requires i < n <= |rec|
    ensures rec[i] in rec[..n]
  {
    assert rec[..n][i] == rec[i];
  }

  /** All accepted blocks from the last closing on are pending. */
  lemma PendingSince(c: Core, jobs: seq<Job>, rec: Files, base0: nat, size: nat, n: nat, high: nat)
    requires Tracks(c, jobs, rec, base0, size) && LastClosed(rec, n, high, base0, c.base, size)
    ensures forall f | f in rec :: f in rec[..n] || (f in c.irr && high <= f.num)
  {
    forall i | 0 <= i < |rec|
      ensures rec[i] in rec[..n] || (rec[i] in c.irr && high <= rec[i].num)
    {
      if i < n {
        InFront(rec, i, n);
      } else {
        InFrom(rec, rec[i], c.base);
        InFrom(c.irr, rec[i], c.base);
      }
    }
  }

  lemma NowClosed(c: Core, jobs: seq<Job>, rec: Files, f: OneBlockFile, base0: nat, size: nat, b: nat)
    requires Tracks(c, jobs, rec, base0, size) && rec != [] && c.base + size <= b <= f.num
    ensures LastClosed(rec + [f], |rec|, c.base + size, base0, b, size)
  {
    LateAppend(rec, f, |rec| - 1, size);
    NextMultiple(c.base, size);
  }

  /** The pending blocks are accepted ones. */
  lemma StillPartOf(c: Core, rec: Files, f: OneBlockFile, cfg: Config)
    requires 0 < cfg.size && PartOf(c.irr, rec)
    ensures var (c', js, out) := Accept(c, f, cfg); PartOf(c'.irr, Recorded(rec, f, out))
  {
  }

  lemma FirstIn(files: Files)
    ensures files == [] || files[0] in files
  {
  }

  /**
   The forks of a skipped range are not listed when the bundler moves past it: pending block 150,
   a fork 250, and then block 400 move the base to 300, and the fork is still there.
   */
  lemma SkippedForkStays(seen: map<string, OneBlockFile>, forks: Files)
    requires Split(map["fork" := OneBlockFile("fork", 250)], {"a"}, 200, seen, forks)
    ensures Accept(Core(100, [OneBlockFile("a", 150)], false), OneBlockFile("b", 400), Config(100, 0, 0)).0.base == 300
    ensures "fork" in seen && forks == []
  {
    FirstIn(forks);
  }

  /** The books of a run: what it closed last. */
  datatype Books = Books(n: nat, high: nat)

  ghost predicate InOrder(k: Books, before: map<string, OneBlockFile>, seen: map<string, OneBlockFile>, forks: Files,
                          rec: Files, base0: nat, c: Core, size: nat)
    requires 0 < size
  {
    && Keyed(before) && PartOf(c.irr, rec) && LastClosed(rec, k.n, k.high, base0, c.base, size)
    && Swept(before, seen, forks, rec[..k.n], k.high)
  }

  ghost function BooksAfter(k: Books, c: Core, rec: Files, o: Outcome, size: nat): Books {
    if Closes(o) then Books(|rec|, c.base + size) else k
  }

  predicate Closes(o: Outcome) {
    o.Bundled? || o.StopReached?
  }

  lemma ClosingBase(c: Core, f: OneBlockFile, cfg: Config)
    requires 0 < cfg.size && Closes(Accept(c, f, cfg).2)
    ensures c.base + cfg.size <= Accept(c, f, cfg).0.base <= f.num
  {
  }

  lemma ClosingSweep(k: Books, before: map<string, OneBlockFile>, seen: map<string, OneBlockFile>,
                     seen': map<string, OneBlockFile>, forks: Files, out: Files, c: Core, jobs: seq<Job>, rec: Files,
                     f: OneBlockFile, base0: nat, size: nat)
    requires Tracks(c, jobs, rec, base0, size) && InOrder(k, before, seen, forks, rec, base0, c, size)
    requires Split(seen, Names(c.irr), c.base + size, seen', out)
    ensures Swept(before, seen', forks + out, (rec + [f])[..|rec|], c.base + size)
  {
    PendingSince(c, jobs, rec, base0, size, k.n, k.high);
    SweepClose(before, seen, seen', forks, out, rec, rec[..k.n], k.high, c.irr, c.base + size);
    assert (rec + [f])[..|rec|] == rec;
  }

  lemma ClosingStep(k: Books, before: map<string, OneBlockFile>, seen: map<string, OneBlockFile>,
                    seen': map<string, OneBlockFile>, forks: Files, out: Files, c: Core, jobs: seq<Job>, rec: Files,
                    f: OneBlockFile, base0: nat, size: nat, c': Core)
    requires Tracks(c, jobs, rec, base0, size) && InOrder(k, before, seen, forks, rec, base0, c, size)
    requires rec != [] && c.base + size <= c'.base <= f.num && PartOf(c'.irr, rec + [f])
    requires Split(seen, Names(c.irr), c.base + size, seen', out)
    ensures InOrder(Books(|rec|, c.base + size), before, seen', forks + out, rec + [f], base0, c', size)
  {
    ClosingSweep(k, before, seen, seen', forks, out, c, jobs, rec, f, base0, size);
    NowClosed(c, jobs, rec, f, base0, size, c'.base);
  }

  lemma HeldStep(k: Books, before: map<string, OneBlockFile>, seen: map<string, OneBlockFile>, forks: Files,
                 rec: Files, f: OneBlockFile, base0: nat, c: Core, size: nat, c': Core)
    requires 0 < size && InOrder(k, before, seen, forks, rec, base0, c, size) && c.base == c'.base <= f.num
    requires PartOf(c'.irr, rec + [f])
    ensures InOrder(k, before, seen, forks, rec + [f], base0, c', size)
  {
    StillClosed(rec, f, k.n, k.high, base0, c.base, size);
  }

  lemma HeldBase(c: Core, f: OneBlockFile, cfg: Config)
    requires 0 < cfg.size
    ensures var (c', js, o) := Accept(c, f, cfg);
            && (o.Held? ==> c.base == c'.base <= f.num)
            && (Closes(o) ==> c.irr != [])
            && (!Closes(o) && !o.Held? ==> c'.base == c.base && c'.irr == c.irr)
  {
  }

  /** One block keeps the books. */
  lemma BooksStep(k: Books, before: map<string, OneBlockFile>, seen: map<string, OneBlockFile>,
                  seen': map<string, OneBlockFile>, forks: Files, out: Files, c: Core, jobs: seq<Job>, rec: Files,
                  f: OneBlockFile, base0: nat, cfg: Config, c': Core, o: Outcome)
    requires Tracks(c, jobs, rec, base0, cfg.size) && InOrder(k, before, seen, forks, rec, base0, c, cfg.size)
    requires c' == Accept(c, f, cfg).0 && o == Accept(c, f, cfg).2 && !o.NothingPending?
    requires if Closes(o) then Split(seen, Names(c.irr), c.base + cfg.size, seen', out) else out == [] && seen' == seen
    ensures InOrder(BooksAfter(k, c, rec, o, cfg.size), before, seen', forks + out, Recorded(rec, f, o), base0, c',
                    cfg.size)
  {
    StillPartOf(c, rec, f, cfg);
    HeldBase(c, f, cfg);
    if Closes(o) {
      ClosingBase(c, f, cfg);
      ClosingStep(k, before, seen, seen', forks, out, c, jobs, rec, f, base0, cfg.size, c');
    } else {
      assert forks + [] == forks;
      if o.Held? {
        HeldStep(k, before, seen, forks, rec, f, base0, c, cfg.size, c');
      }
    }
  }

  /** What is recorded of the next block of a chain, and that it is in order. */
  lemma RecordedNext(c: Core, jobs: seq<Job>, files: Files, fed: nat, base0: nat, cfg: Config, o: Outcome)
    requires fed < |files| && Rising(files) && Tracks(c, jobs, From(files[..fed], base0), base0, cfg.size)
    requires o == Accept(c, files[fed], cfg).2 && !o.NothingPending?
    ensures Recorded(From(files[..fed], base0), files[fed], o)
            == From(files[..if o.NotOnBoundary? then fed else fed + 1], base0)
  {
    var low, f := files[..fed], files[fed];
    FedBelow(files, fed);
    LastIsBelow(low, f, base0);
    if !o.NotOnBoundary? {
      TakenIsRecorded(c, jobs, From(low, base0), f, base0, cfg, o);
      FromAppend(low, f, base0);
      assert files[..fed + 1] == low + [f];
    }
  }

  lemma BooksNext(k: Books, before: map<string, OneBlockFile>, seen: map<string, OneBlockFile>,
                  seen': map<string, OneBlockFile>, forks: Files, out: Files, c: Core, jobs: seq<Job>, files: Files,
                  fed: nat, base0: nat, cfg: Config, c': Core, o: Outcome)
    requires fed < |files| && Rising(files) && Tracks(c, jobs, From(files[..fed], base0), base0, cfg.size)
    requires InOrder(k, before, seen, forks, From(files[..fed], base0), base0, c, cfg.size)
    requires c' == Accept(c, files[fed], cfg).0 && o == Accept(c, files[fed], cfg).2 && !o.NothingPending?
    requires if Closes(o) then Split(seen, Names(c.irr), c.base + cfg.size, seen', out) else out == [] && seen' == seen
    ensures InOrder(BooksAfter(k, c, From(files[..fed], base0), o, cfg.size), before, seen', forks + out,
                    From(files[..if o.NotOnBoundary? then fed else fed + 1], base0), base0, c', cfg.size)
  {
    RecordedNext(c, jobs, files, fed, base0, cfg, o);
    BooksStep(k, before, seen, seen', forks, out, c, jobs, From(files[..fed], base0), files[fed], base0, cfg, c', o);
  }

  lemma FedBelow(files: Files, n: nat)
    requires Rising(files) && n < |files|
    ensures AllBelow(files[..n], files[n].num)
  {
    forall i | 0 <= i < n
      ensures files[..n][i].num < files[n].num
    {
      RisingAt(files, i, n);
    }
  }
}
