/**
 The CI scope resolver: from the changed paths to the packages that have to pass again, and how these
 are dealt into buckets.
 */
module CiScope {
  import opened Wrappers
  import opened Sorting
  import opened Workspace

  /** What the change of the root manifest means. */
  datatype ManifestVerdict = EverythingMoved | DepsTouched(deps: set<string>)

  datatype Config = Config(
    seeds: seq<(string, Name)>, ignores: seq<string>, also: seq<(Name, Name)>,
    fnmatch: (string, string) -> bool, verdict: ManifestVerdict)

  datatype ScopeError = UnknownSeedTarget(target: Name) | WasmDirUnmatched(dir: string)

  datatype Mode = Full | Dynamic | Skip

  /** How one changed path is taken. */
  datatype PathClass =
    | Workflow | RootManifest | Seeded(target: Name) | UnknownSeed(target: Name) | Ignored | Owned(name: Name) | Orphan

  predicate EndsWith(s: string, suffix: string) {
    |suffix| <= |s| && s[|s| - |suffix|..] == suffix
  }

  /** `_match`: a pattern that ends in two stars is a prefix. */
  predicate PathMatches(cfg: Config, path: string, pattern: string) {
    if EndsWith(pattern, "**") then pattern[..|pattern| - 2] <= path else cfg.fnmatch(path, pattern)
  }

  /** The target of the first seed rule that matches. */
  function SeedTarget(cfg: Config, seeds: seq<(string, Name)>, path: string): Option<Name> {
    if seeds == [] then None
    else if PathMatches(cfg, path, seeds[0].0) then Some(seeds[0].1)
    else SeedTarget(cfg, seeds[1..], path)
  }

  predicate IgnoredBy(cfg: Config, path: string) {
    exists k :: 0 <= k < |cfg.ignores| && PathMatches(cfg, path, cfg.ignores[k])
  }

  function Classify(ws: seq<Package>, cfg: Config, path: string): PathClass {
    if ".github/" <= path then Workflow
    else if path == "Cargo.lock" || path == "Cargo.toml" then RootManifest
    else
      match SeedTarget(cfg, cfg.seeds, path)
      case Some(target) => if target in Names(ws) then Seeded(target) else UnknownSeed(target)
      case None =>
        if IgnoredBy(cfg, path) then Ignored
        else
          match Owner(ws, path)
          case Some(p) => Owned(p.name)
          case None => Orphan
  }

  /** The package a path brings in directly. */
  function Hit(class_: PathClass): set<Name> {
    match class_
    case Seeded(target) => {target}
    case Owned(name) => {name}
    case _ => {}
  }

  function Hits(ws: seq<Package>, cfg: Config, files: seq<string>): set<Name> {
    if files == [] then {}
    else Hits(ws, cfg, files[..|files| - 1]) + Hit(Classify(ws, cfg, files[|files| - 1]))
  }

  /** The packages with a dependency entry among the touched ones. */
  function Consumers(ws: seq<Package>, touched: set<string>): set<Name> {
    set k, j | 0 <= k < |ws| && 0 <= j < |ws[k].deps| && ws[k].deps[j].name in touched :: ws[k].name
  }

  function Touched(cfg: Config, files: seq<string>): set<string> {
    if "Cargo.toml" in files && cfg.verdict.DepsTouched? then cfg.verdict.deps else {}
  }

  function Direct(ws: seq<Package>, cfg: Config, files: seq<string>): set<Name> {
    Hits(ws, cfg, files) + Consumers(ws, Touched(cfg, files))
  }

  predicate IsCode(path: string) { EndsWith(path, ".rs") || EndsWith(path, "Cargo.toml") }

  predicate IsManifest(path: string) { path == "Cargo.toml" || EndsWith(path, "/Cargo.toml") }

  predicate AnyManifest(files: seq<string>) {
    exists k :: 0 <= k < |files| && IsManifest(files[k])
  }

  /** The changes that move the whole graph, before any path is classified. */
  predicate MovesEverything(cfg: Config, files: seq<string>) {
    || "rust-toolchain" in files || "rust-toolchain.toml" in files
    || ("Cargo.toml" in files && cfg.verdict.EverythingMoved?)
    || ("Cargo.lock" in files && !AnyManifest(files))
  }

  function FirstUnknown(ws: seq<Package>, cfg: Config, files: seq<string>): Option<Name> {
    if files == [] then None
    else
      var earlier := FirstUnknown(ws, cfg, files[..|files| - 1]);
      var last := Classify(ws, cfg, files[|files| - 1]);
      if earlier.Some? then earlier else if last.UnknownSeed? then Some(last.target) else None
  }

  predicate CodeOrphan(ws: seq<Package>, cfg: Config, path: string) {
    Classify(ws, cfg, path).Orphan? && IsCode(path)
  }

  predicate AnyCodeOrphan(ws: seq<Package>, cfg: Config, files: seq<string>) {
    exists k :: 0 <= k < |files| && CodeOrphan(ws, cfg, files[k])
  }

  /** The extra packages of the `--also` rules, in order: a rule fires when its trigger is in scope by then. */
  function Pulled(ws: seq<Package>, also: seq<(Name, Name)>, packages: set<Name>): set<Name> {
    if also == [] then packages
    else
      var before := Pulled(ws, also[..|also| - 1], packages);
      var rule := also[|also| - 1];
      if rule.0 in before && rule.1 in Names(ws) then before + {rule.1} else before
  }

  ghost function ClosureOf(ws: seq<Package>, seeds: set<Name>): set<Name> {
    set n | n in seeds + Names(ws) && Affected(GraphOf(ws), seeds, n)
  }

  datatype Plan = Plan(mode: Mode, seeds: set<Name>, packages: set<Name>)

  ghost function Resolved(ws: seq<Package>, cfg: Config, files: seq<string>): Result<Plan, ScopeError> {
    if files == [] then Ok(Plan(Skip, {}, {}))
    else if MovesEverything(cfg, files) then Ok(Plan(Full, {}, Names(ws)))
    else if FirstUnknown(ws, cfg, files).Some? then Err(UnknownSeedTarget(FirstUnknown(ws, cfg, files).value))
    else if AnyCodeOrphan(ws, cfg, files) then Ok(Plan(Full, {}, Names(ws)))
    else if Direct(ws, cfg, files) == {} then Ok(Plan(Skip, {}, {}))
    else
      var direct := Direct(ws, cfg, files);
      Ok(Plan(Dynamic, direct, Pulled(ws, cfg.also, ClosureOf(ws, direct))))
  }

  // ----- The same without the helpers.

  ghost predicate EndsIn(path: string, suffix: string) {
    exists front: string :: path == front + suffix
  }

  lemma EndsInIff(path: string, suffix: string)
    ensures EndsWith(path, suffix) <==> EndsIn(path, suffix)
  {
    if EndsWith(path, suffix) {
      assert path == path[..|path| - |suffix|] + suffix;
    }
  }

  /** A pattern that ends in two stars stands for its paths below, any other one for what `fnmatch` says. */
  ghost predicate Fits(cfg: Config, path: string, pattern: string) {
    if EndsIn(pattern, "**") then exists front: string :: pattern == front + "**" && front <= path
    else cfg.fnmatch(path, pattern)
  }

  lemma FitsIff(cfg: Config, path: string, pattern: string)
    ensures PathMatches(cfg, path, pattern) <==> Fits(cfg, path, pattern)
  {
    EndsInIff(pattern, "**");
    if EndsIn(pattern, "**") {
      assert pattern == pattern[..|pattern| - 2] + "**";
    }
  }

  /** Rule `k` is the first seed rule for the path. */
  ghost predicate FirstSeed(cfg: Config, path: string, k: nat) {
    k < |cfg.seeds| && Fits(cfg, path, cfg.seeds[k].0) && forall j :: 0 <= j < k ==> !Fits(cfg, path, cfg.seeds[j].0)
  }

  ghost predicate SeedFits(cfg: Config, path: string) {
    exists k :: 0 <= k < |cfg.seeds| && Fits(cfg, path, cfg.seeds[k].0)
  }

  ghost predicate IgnoreFits(cfg: Config, path: string) {
    exists k :: 0 <= k < |cfg.ignores| && Fits(cfg, path, cfg.ignores[k])
  }

  ghost predicate Inside(p: Package, path: string) {
    path == p.dir || exists rest: string :: path == p.dir + "/" + rest
  }

  lemma InsideIff(p: Package, path: string)
    ensures Covers(p.dir, path) <==> Inside(p, path)
  {
    if p.dir + "/" <= path {
      assert path == p.dir + "/" + path[|p.dir| + 1..];
    }
  }

  /** Neither a workflow file nor the lock file nor the root manifest. */
  predicate Ordinary(path: string) { !(".github/" <= path) && path != "Cargo.lock" && path != "Cargo.toml" }

  lemma {:induction false} SeedTargetIs(cfg: Config, path: string, from: nat) returns (k: nat)
    requires from <= |cfg.seeds| && forall j :: 0 <= j < from ==> !Fits(cfg, path, cfg.seeds[j].0)
    ensures SeedTarget(cfg, cfg.seeds[from..], path).Some? <==> SeedFits(cfg, path)
    ensures SeedFits(cfg, path) ==>
              FirstSeed(cfg, path, k) && SeedTarget(cfg, cfg.seeds[from..], path).value == cfg.seeds[k].1
    decreases |cfg.seeds| - from
  {
    if from == |cfg.seeds| {
      k := 0;
    } else {
      FitsIff(cfg, path, cfg.seeds[from].0);
      if Fits(cfg, path, cfg.seeds[from].0) {
        k := from;
      } else {
        assert cfg.seeds[from..][1..] == cfg.seeds[from + 1..];
        k := SeedTargetIs(cfg, path, from + 1);
      }
    }
  }

  /** The first seed rule that fits decides; then an ignore rule; then the innermost package directory. */
  lemma ClassMeans(ws: seq<Package>, cfg: Config, path: string)
    ensures var c := Classify(ws, cfg, path);
            && (c.Workflow? <==> ".github/" <= path)
            && (c.RootManifest? <==> path == "Cargo.lock" || path == "Cargo.toml")
            && (c.Seeded? || c.UnknownSeed? <==> Ordinary(path) && SeedFits(cfg, path))
            && (c.Seeded? ==> c.target in Names(ws)) && (c.UnknownSeed? ==> c.target !in Names(ws))
            && (c.Seeded? || c.UnknownSeed? ==>
                  exists k: nat :: FirstSeed(cfg, path, k) && cfg.seeds[k].1 == c.target)
            && (c.Ignored? <==> Ordinary(path) && !SeedFits(cfg, path) && IgnoreFits(cfg, path))
    ensures var c := Classify(ws, cfg, path);
            var placed := Ordinary(path) && !SeedFits(cfg, path) && !IgnoreFits(cfg, path);
            && (c.Owned? <==> placed && exists p :: p in ws && Inside(p, path))
            && (c.Orphan? <==> placed && forall p :: p in ws ==> !Inside(p, path))
            && (c.Owned? ==> exists p :: p in ws && p.name == c.name && Inside(p, path) &&
                               forall q :: q in ws && Inside(q, path) ==> |q.dir| <= |p.dir|)
  {
    assert ".github/"[0] == '.' && "Cargo.lock"[0] == 'C' && "Cargo.toml"[0] == 'C';
    var k := SeedTargetIs(cfg, path, 0);
    assert cfg.seeds[0..] == cfg.seeds;
    IgnoredIff(cfg, path);
    OwnerMeans(ws, path);
  }

  lemma IgnoredIff(cfg: Config, path: string)
    ensures IgnoredBy(cfg, path) <==> IgnoreFits(cfg, path)
  {
    forall k | 0 <= k < |cfg.ignores|
      ensures PathMatches(cfg, path, cfg.ignores[k]) <==> Fits(cfg, path, cfg.ignores[k])
    {
      FitsIff(cfg, path, cfg.ignores[k]);
    }
  }

  lemma OwnerMeans(ws: seq<Package>, path: string)
    ensures Owner(ws, path).Some? <==> exists p :: p in ws && Inside(p, path)
    ensures Owner(ws, path).Some? ==>
              var own := Owner(ws, path).value;
              own in ws && Inside(own, path) && forall q :: q in ws && Inside(q, path) ==> |q.dir| <= |own.dir|
  {
    OwnerIsInnermost(ws, path);
    forall q | q in ws ensures Covers(q.dir, path) <==> Inside(q, path) {
      InsideIff(q, path);
    }
  }

  /** A toolchain file, a root manifest that moves everything, or a lock file that no manifest explains. */
  lemma MovesEverythingMeans(cfg: Config, files: seq<string>)
    ensures MovesEverything(cfg, files) <==>
              || "rust-toolchain" in files || "rust-toolchain.toml" in files
              || ("Cargo.toml" in files && cfg.verdict == EverythingMoved)
              || ("Cargo.lock" in files && "Cargo.toml" !in files &&
                  forall path :: path in files ==> !EndsIn(path, "/Cargo.toml"))
  {
    forall path ensures IsManifest(path) <==> path == "Cargo.toml" || EndsIn(path, "/Cargo.toml") {
      EndsInIff(path, "/Cargo.toml");
    }
    if AnyManifest(files) {
      var k :| 0 <= k < |files| && IsManifest(files[k]);
      assert files[k] in files;
    }
    if path :| path in files && IsManifest(path) {
      var k :| 0 <= k < |files| && files[k] == path;
      assert IsManifest(files[k]);
    }
  }

  lemma GraphMovesForcesFull(ws: seq<Package>, cfg: Config, files: seq<string>, path: string)
    requires path in files
    requires || path in {"rust-toolchain", "rust-toolchain.toml"}
             || (path == "Cargo.toml" && cfg.verdict == EverythingMoved)
             || (path == "Cargo.lock" && "Cargo.toml" !in files && forall p :: p in files ==> !EndsIn(p, "/Cargo.toml"))
    ensures Resolved(ws, cfg, files) == Ok(Plan(Full, {}, Names(ws)))
  {
    MovesEverythingMeans(cfg, files);
  }

  /** Package `k` has a dependency entry that the root manifest changed. */
  ghost predicate UsesTouched(ws: seq<Package>, cfg: Config, files: seq<string>, k: nat) {
    && k < |ws| && "Cargo.toml" in files && cfg.verdict.DepsTouched?
    && exists j :: 0 <= j < |ws[k].deps| && ws[k].deps[j].name in cfg.verdict.deps
  }

  lemma ConsumersMean(ws: seq<Package>, cfg: Config, files: seq<string>, n: Name)
    ensures n in Consumers(ws, Touched(cfg, files)) <==>
              exists k: nat :: UsesTouched(ws, cfg, files, k) && ws[k].name == n
  {
    if k: nat :| UsesTouched(ws, cfg, files, k) && ws[k].name == n {
      var j :| 0 <= j < |ws[k].deps| && ws[k].deps[j].name in cfg.verdict.deps;
      assert ws[k].deps[j].name in Touched(cfg, files);
    }
    if n in Consumers(ws, Touched(cfg, files)) {
      var k, j :| 0 <= k < |ws| && 0 <= j < |ws[k].deps| && ws[k].deps[j].name in Touched(cfg, files) &&
                  ws[k].name == n;
      assert UsesTouched(ws, cfg, files, k);
    }
  }

  // ----- What the plan covers.

  lemma {:induction false} HitsAre(ws: seq<Package>, cfg: Config, files: seq<string>, n: Name)
    ensures n in Hits(ws, cfg, files) <==> exists path :: path in files && n in Hit(Classify(ws, cfg, path))
  {
    if files != [] {
      var front, last := files[..|files| - 1], files[|files| - 1];
      HitsAre(ws, cfg, front, n);
      assert files == front + [last];
      if n in Hit(Classify(ws, cfg, last)) {
        assert last in files;
      }
    }
  }

  lemma {:induction false} HitsAreMembers(ws: seq<Package>, cfg: Config, files: seq<string>)
    ensures Hits(ws, cfg, files) <= Names(ws)
  {
    if files != [] {
      HitsAreMembers(ws, cfg, files[..|files| - 1]);
      OwnerIsInnermost(ws, files[|files| - 1]);
    }
  }

  lemma {:induction false} PulledGrows(ws: seq<Package>, also: seq<(Name, Name)>, packages: set<Name>)
    ensures packages <= Pulled(ws, also, packages) <= packages + Names(ws)
  {
    if also != [] {
      PulledGrows(ws, also[..|also| - 1], packages);
    }
  }

  lemma {:induction false} PulledMonotone(ws: seq<Package>, also: seq<(Name, Name)>, a: set<Name>, b: set<Name>)
    requires a <= b
    ensures Pulled(ws, also, a) <= Pulled(ws, also, b)
  {
    if also != [] {
      PulledMonotone(ws, also[..|also| - 1], a, b);
    }
  }

  /** A plan never names a package the workspace does not have. */
  lemma PlanIsInsideWorkspace(ws: seq<Package>, cfg: Config, files: seq<string>)
    requires Resolved(ws, cfg, files).Ok?
    ensures Resolved(ws, cfg, files).value.packages <= Names(ws)
    ensures Resolved(ws, cfg, files).value.seeds <= Names(ws)
  {
    HitsAreMembers(ws, cfg, files);
    PulledGrows(ws, cfg.also, ClosureOf(ws, Direct(ws, cfg, files)));
  }

  /** A seed rule sends the path to `n`, or no rule takes it and `n` is the package of its innermost directory. */
  ghost predicate BelongsTo(ws: seq<Package>, cfg: Config, path: string, n: Name) {
    Ordinary(path) && n in Names(ws) &&
    if SeedFits(cfg, path) then exists k: nat :: FirstSeed(cfg, path, k) && cfg.seeds[k].1 == n
    else
      !IgnoreFits(cfg, path) &&
      exists p :: p in ws && p.name == n && Inside(p, path) &&
                  forall q :: q in ws && Inside(q, path) && q != p ==> |q.dir| < |p.dir|
  }

  lemma BelongingIsHit(ws: seq<Package>, cfg: Config, path: string, n: Name)
    requires BelongsTo(ws, cfg, path, n)
    ensures n in Hit(Classify(ws, cfg, path))
  {
    if SeedFits(cfg, path) {
      var k := SeedTargetIs(cfg, path, 0);
      assert cfg.seeds[0..] == cfg.seeds;
    } else {
      OwnerMeans(ws, path);
    }
    ClassMeans(ws, cfg, path);
  }

  /** Nothing a changed path can break is left out: its package and everything that uses it are in scope. */
  lemma OwnedPathIsCovered(ws: seq<Package>, cfg: Config, files: seq<string>, path: string, n: Name, user: Name)
    requires path in files && BelongsTo(ws, cfg, path, n) && Affected(GraphOf(ws), {n}, user)
    requires Resolved(ws, cfg, files).Ok?
    ensures !Resolved(ws, cfg, files).value.mode.Skip?
    ensures user in Resolved(ws, cfg, files).value.packages
  {
    BelongingIsHit(ws, cfg, path, n);
    HitsAre(ws, cfg, files, n);
    SeedUserCovered(ws, cfg, files, n, user);
  }

  lemma AffectedIsMember(ws: seq<Package>, seeds: set<Name>, n: Name)
    requires seeds <= Names(ws) && Affected(GraphOf(ws), seeds, n)
    ensures n in Names(ws)
  {
    var chain: seq<Name> :| Chain(GraphOf(ws), seeds, chain, n);
    forall a | a in Names(ws) ensures DependentsOf(GraphOf(ws), a) <= Names(ws) {
      forall b | b in DependentsOf(GraphOf(ws), a) ensures b in Names(ws) {}
    }
    ChainStaysInside(GraphOf(ws), seeds, Names(ws), chain, n);
  }

  /** A Rust source or manifest outside every package directory is never dropped silently. */
  lemma OrphanCodeForcesFull(ws: seq<Package>, cfg: Config, files: seq<string>, path: string)
    requires path in files && Ordinary(path) && !SeedFits(cfg, path) && !IgnoreFits(cfg, path)
    requires (forall p :: p in ws ==> !Inside(p, path)) && (EndsIn(path, ".rs") || EndsIn(path, "Cargo.toml"))
    ensures Resolved(ws, cfg, files).Err? || Resolved(ws, cfg, files).value == Plan(Full, {}, Names(ws))
  {
    ClassMeans(ws, cfg, path);
    EndsInIff(path, ".rs");
    EndsInIff(path, "Cargo.toml");
    assert CodeOrphan(ws, cfg, path);
  }

  /** Rules that fire one after another: the first trigger is in scope already, each extra triggers the next rule. */
  ghost predicate RuleChain(ws: seq<Package>, also: seq<(Name, Name)>, packages: set<Name>, chain: seq<nat>, n: Name) {
    && chain != [] && (forall j :: 0 <= j < |chain| ==> chain[j] < |also| && also[chain[j]].1 in Names(ws))
    && (forall j :: 0 < j < |chain| ==> chain[j - 1] < chain[j] && also[chain[j]].0 == also[chain[j - 1]].1)
    && also[chain[0]].0 in packages && also[chain[|chain| - 1]].1 == n
  }

  lemma ChainLonger(ws: seq<Package>, also: seq<(Name, Name)>, packages: set<Name>, chain: seq<nat>, n: Name)
    requires also != [] && RuleChain(ws, also[..|also| - 1], packages, chain, also[|also| - 1].0)
    requires also[|also| - 1].1 == n && n in Names(ws)
    ensures RuleChain(ws, also, packages, chain + [|also| - 1], n)
  {
  }

  lemma ChainStays(ws: seq<Package>, also: seq<(Name, Name)>, packages: set<Name>, chain: seq<nat>, n: Name)
    requires also != [] && RuleChain(ws, also[..|also| - 1], packages, chain, n)
    ensures RuleChain(ws, also, packages, chain, n)
  {
  }

  lemma {:induction false} PulledHasChain(ws: seq<Package>, also: seq<(Name, Name)>, packages: set<Name>, n: Name)
    requires n in Pulled(ws, also, packages)
    ensures n in packages || exists chain: seq<nat> :: RuleChain(ws, also, packages, chain, n)
  {
    if also != [] && n !in packages {
      var front, rule := also[..|also| - 1], also[|also| - 1];
      if n in Pulled(ws, front, packages) {
        PulledHasChain(ws, front, packages, n);
        var chain: seq<nat> :| RuleChain(ws, front, packages, chain, n);
        ChainStays(ws, also, packages, chain, n);
      } else {
        PulledHasChain(ws, front, packages, rule.0);
        if rule.0 in packages {
          assert RuleChain(ws, also, packages, [|also| - 1], n);
        } else {
          var chain: seq<nat> :| RuleChain(ws, front, packages, chain, rule.0);
          ChainLonger(ws, also, packages, chain, n);
        }
      }
    }
  }

  lemma {:induction false} ChainIsPulled(ws: seq<Package>, also: seq<(Name, Name)>, packages: set<Name>,
                                         chain: seq<nat>, n: Name)
    requires RuleChain(ws, also, packages, chain, n)
    ensures n in Pulled(ws, also, packages)
    decreases |also|
  {
    var front, last := also[..|also| - 1], chain[|chain| - 1];
    PulledGrows(ws, front, packages);
    if last < |front| {
      ChainBelow(chain);
      assert RuleChain(ws, front, packages, chain, n);
      ChainIsPulled(ws, front, packages, chain, n);
    } else if |chain| > 1 {
      ChainBelow(chain);
      assert RuleChain(ws, front, packages, chain[..|chain| - 1], also[last].0);
      ChainIsPulled(ws, front, packages, chain[..|chain| - 1], also[last].0);
    }
  }

  lemma {:induction false} ChainBelow(chain: seq<nat>)
    requires chain != [] && forall j :: 0 < j < |chain| ==> chain[j - 1] < chain[j]
    ensures forall j :: 0 <= j < |chain| - 1 ==> chain[j] < chain[|chain| - 1]
  {
    if |chain| > 1 {
      ChainBelow(chain[..|chain| - 1]);
    }
  }

  /** Outside the closure exactly those packages are in scope that a chain of rules from the closure leads to. */
  lemma PulledHasReason(ws: seq<Package>, also: seq<(Name, Name)>, packages: set<Name>, n: Name)
    ensures n in Pulled(ws, also, packages) <==>
              n in packages || exists chain: seq<nat> :: RuleChain(ws, also, packages, chain, n)
  {
    PulledGrows(ws, also, packages);
    if n in Pulled(ws, also, packages) {
      PulledHasChain(ws, also, packages, n);
    }
    if chain: seq<nat> :| RuleChain(ws, also, packages, chain, n) {
      ChainIsPulled(ws, also, packages, chain, n);
    }
  }

  /** A dependency that the root manifest changed is tested in every package with an entry for it and all its users. */
  lemma TouchedDependencyIsCovered(ws: seq<Package>, cfg: Config, files: seq<string>, k: nat, j: nat, user: Name)
    requires "Cargo.toml" in files && cfg.verdict.DepsTouched?
    requires k < |ws| && j < |ws[k].deps| && ws[k].deps[j].name in cfg.verdict.deps
    requires Affected(GraphOf(ws), {ws[k].name}, user) && Resolved(ws, cfg, files).Ok?
    ensures !Resolved(ws, cfg, files).value.mode.Skip?
    ensures user in Resolved(ws, cfg, files).value.packages
  {
    assert UsesTouched(ws, cfg, files, k);
    ConsumersMean(ws, cfg, files, ws[k].name);
    SeedUserCovered(ws, cfg, files, ws[k].name, user);
  }

  lemma SeedUserCovered(ws: seq<Package>, cfg: Config, files: seq<string>, n: Name, user: Name)
    requires files != [] && n in Direct(ws, cfg, files) && Affected(GraphOf(ws), {n}, user)
    requires Resolved(ws, cfg, files).Ok?
    ensures !Resolved(ws, cfg, files).value.mode.Skip?
    ensures user in Resolved(ws, cfg, files).value.packages
  {
    HitsAreMembers(ws, cfg, files);
    var direct := Direct(ws, cfg, files);
    AffectedGrows(GraphOf(ws), {n}, direct, user);
    AffectedIsMember(ws, {n}, user);
    PulledGrows(ws, cfg.also, ClosureOf(ws, direct));
  }

  /** Workflow, lock and root manifest files, and what no seed rule takes and no package holds unless it is code. */
  ghost predicate NothingToTest(ws: seq<Package>, cfg: Config, path: string) {
    || !Ordinary(path)
    || (!SeedFits(cfg, path) && (IgnoreFits(cfg, path) ||
          ((forall p :: p in ws ==> !Inside(p, path)) && !EndsIn(path, ".rs") && !EndsIn(path, "Cargo.toml"))))
  }

  lemma NothingToTestIff(ws: seq<Package>, cfg: Config, path: string)
    ensures NothingToTest(ws, cfg, path) <==> NeedsNothing(ws, cfg, path)
  {
    ClassMeans(ws, cfg, path);
    EndsInIff(path, ".rs");
    EndsInIff(path, "Cargo.toml");
  }

  /**
   A change set is skipped exactly when there is nothing to do: it moves nothing, no package has an entry for a
   dependency that the root manifest changed, and every path is one there is nothing to test for.
   */
  lemma SkipIsSafe(ws: seq<Package>, cfg: Config, files: seq<string>)
    requires files != []
    ensures Resolved(ws, cfg, files) == Ok(Plan(Skip, {}, {})) <==>
              && !MovesEverything(cfg, files) && (forall path :: path in files ==> NothingToTest(ws, cfg, path))
              && forall k: nat :: !UsesTouched(ws, cfg, files, k)
  {
    SkipByClass(ws, cfg, files);
    forall path ensures NothingToTest(ws, cfg, path) <==> NeedsNothing(ws, cfg, path) {
      NothingToTestIff(ws, cfg, path);
    }
    if k: nat :| UsesTouched(ws, cfg, files, k) {
      ConsumersMean(ws, cfg, files, ws[k].name);
    } else if n :| n in Consumers(ws, Touched(cfg, files)) {
      ConsumersMean(ws, cfg, files, n);
    }
  }

  predicate NeedsNothing(ws: seq<Package>, cfg: Config, path: string) {
    var c := Classify(ws, cfg, path);
    c.Workflow? || c.RootManifest? || c.Ignored? || (c.Orphan? && !IsCode(path))
  }

  lemma SkipByClass(ws: seq<Package>, cfg: Config, files: seq<string>)
    requires files != []
    ensures Resolved(ws, cfg, files) == Ok(Plan(Skip, {}, {})) <==>
              !MovesEverything(cfg, files) && Consumers(ws, Touched(cfg, files)) == {} &&
              forall path :: path in files ==> NeedsNothing(ws, cfg, path)
  {
    assert forall path :: NeedsNothing(ws, cfg, path) <==>
             Hit(Classify(ws, cfg, path)) == {} && !Classify(ws, cfg, path).UnknownSeed? && !CodeOrphan(ws, cfg, path);
    UnknownIsFound(ws, cfg, files);
    if !MovesEverything(cfg, files) {
      if Direct(ws, cfg, files) == {} {
        forall path | path in files ensures Hit(Classify(ws, cfg, path)) == {} {
          if n :| n in Hit(Classify(ws, cfg, path)) {
            HitsAre(ws, cfg, files, n);
          }
        }
      } else if n :| n in Hits(ws, cfg, files) {
        HitsAre(ws, cfg, files, n);
      }
    }
  }

  lemma {:induction false} UnknownIsFound(ws: seq<Package>, cfg: Config, files: seq<string>)
    ensures FirstUnknown(ws, cfg, files).Some? <==>
              exists path :: path in files && Classify(ws, cfg, path).UnknownSeed?
  {
    if files != [] {
      var front, last := files[..|files| - 1], files[|files| - 1];
      UnknownIsFound(ws, cfg, front);
      assert files == front + [last];
    }
  }

  /** A lock file that changed without a manifest, beside a manifest that changed too in the larger change. */
  predicate LockGetsExplained(some: seq<string>, more: seq<string>) {
    "Cargo.lock" in some && !AnyManifest(some) && AnyManifest(more)
  }

  /** What the directly hit packages bring into scope. */
  ghost function ScopeOf(ws: seq<Package>, cfg: Config, files: seq<string>): set<Name> {
    Pulled(ws, cfg.also, ClosureOf(ws, Direct(ws, cfg, files)))
  }

  lemma ScopeGrows(ws: seq<Package>, cfg: Config, some: seq<string>, more: seq<string>)
    requires forall path :: path in some ==> path in more
    requires Resolved(ws, cfg, some).Ok? && Resolved(ws, cfg, more).Ok? && !LockGetsExplained(some, more)
    ensures Resolved(ws, cfg, some).value.packages <= Resolved(ws, cfg, more).value.packages
  {
    PlanIsInsideWorkspace(ws, cfg, some);
    if !Resolved(ws, cfg, more).value.mode.Full? && some != [] {
      NotFullBelow(ws, cfg, some, more);
      DirectGrows(ws, cfg, some, more);
      var a, b := Direct(ws, cfg, some), Direct(ws, cfg, more);
      forall n | n in ClosureOf(ws, a) ensures n in ClosureOf(ws, b) {
        AffectedGrows(GraphOf(ws), a, b, n);
      }
      PulledMonotone(ws, cfg.also, ClosureOf(ws, a), ClosureOf(ws, b));
    }
  }

  lemma {:induction false} NothingPullsNothing(ws: seq<Package>, also: seq<(Name, Name)>)
    ensures Pulled(ws, also, {}) == {}
  {
    if also != [] {
      NothingPullsNothing(ws, also[..|also| - 1]);
    }
  }

  /** Without a change that forces the full scope, the packages are what the direct hits bring in. */
  lemma NarrowScopeIs(ws: seq<Package>, cfg: Config, files: seq<string>)
    requires Resolved(ws, cfg, files).Ok? && files != []
    requires !MovesEverything(cfg, files) && !AnyCodeOrphan(ws, cfg, files)
    ensures Resolved(ws, cfg, files).value.packages == ScopeOf(ws, cfg, files)
  {
    if Direct(ws, cfg, files) == {} {
      NoSeedsReachNothing(ws);
      NothingPullsNothing(ws, cfg.also);
    }
  }

  lemma NoSeedsReachNothing(ws: seq<Package>)
    ensures ClosureOf(ws, {}) == {}
  {
  }

  /**
   Changing more paths keeps every package in scope if and only if no manifest joins a lock file that was changed
   without one, or the larger change moves everything, holds orphan code, or reaches the whole workspace by itself.
   */
  lemma MoreChangesKeepScope(ws: seq<Package>, cfg: Config, some: seq<string>, more: seq<string>)
    requires forall path :: path in some ==> path in more
    requires Resolved(ws, cfg, some).Ok? && Resolved(ws, cfg, more).Ok?
    ensures Resolved(ws, cfg, some).value.packages <= Resolved(ws, cfg, more).value.packages <==>
              !LockGetsExplained(some, more) || MovesEverything(cfg, more) || AnyCodeOrphan(ws, cfg, more) ||
              Names(ws) <= ScopeOf(ws, cfg, more)
  {
    if LockGetsExplained(some, more) {
      assert Resolved(ws, cfg, some).value.packages == Names(ws);
      if !MovesEverything(cfg, more) && !AnyCodeOrphan(ws, cfg, more) {
        NarrowScopeIs(ws, cfg, more);
      }
    } else {
      ScopeGrows(ws, cfg, some, more);
    }
  }

  /** Adding one manifest to a bare lock file change shrinks the full scope to what uses that manifest's package. */
  lemma ManifestNarrowsLock(ws: seq<Package>, cfg: Config, manifest: string, p: Package)
    requires cfg.seeds == [] && cfg.ignores == [] && cfg.also == [] && cfg.verdict == DepsTouched({})
    requires EndsWith(manifest, "/Cargo.toml") && !(".github/" <= manifest) && Owner(ws, manifest) == Some(p)
    ensures Resolved(ws, cfg, ["Cargo.lock"]) == Ok(Plan(Full, {}, Names(ws)))
    ensures Resolved(ws, cfg, ["Cargo.lock", manifest]) == Ok(Plan(Dynamic, {p.name}, ClosureOf(ws, {p.name})))
  {
    SlashedIsOrdinary(manifest);
    LockIsNoManifest();
    var files := ["Cargo.lock", manifest];
    assert IsManifest(files[1]);
    assert Classify(ws, cfg, manifest) == Owned(p.name);
    assert files[..1] == ["Cargo.lock"] && files[..1][..0] == [];
    assert Hits(ws, cfg, files[..1]) == {};
    assert Consumers(ws, {}) == {};
    assert Direct(ws, cfg, files) == {p.name};
    assert FirstUnknown(ws, cfg, files[..1]) == None;
  }

  lemma SlashedIsOrdinary(path: string)
    requires EndsWith(path, "/Cargo.toml")
    ensures path !in ["rust-toolchain", "rust-toolchain.toml", "Cargo.lock", "Cargo.toml"]
  {
  }

  lemma LockIsNoManifest()
    ensures !IsManifest("Cargo.lock")
  {
  }

  lemma NotFullBelow(ws: seq<Package>, cfg: Config, some: seq<string>, more: seq<string>)
    requires forall path :: path in some ==> path in more
    requires Resolved(ws, cfg, some).Ok? && Resolved(ws, cfg, more).Ok? && !Resolved(ws, cfg, more).value.mode.Full?
    requires !LockGetsExplained(some, more)
    ensures !Resolved(ws, cfg, some).value.mode.Full?
  {
    if some != [] {
      assert some[0] in more;
      if AnyCodeOrphan(ws, cfg, some) {
        var k :| 0 <= k < |some| && CodeOrphan(ws, cfg, some[k]);
        assert some[k] in more;
      }
    }
  }

  lemma DirectGrows(ws: seq<Package>, cfg: Config, some: seq<string>, more: seq<string>)
    requires forall path :: path in some ==> path in more
    ensures Direct(ws, cfg, some) <= Direct(ws, cfg, more)
  {
    forall n | n in Hits(ws, cfg, some) ensures n in Hits(ws, cfg, more) {
      HitsAre(ws, cfg, some, n);
      HitsAre(ws, cfg, more, n);
    }
  }

  // ----- Buckets.

  function StripSlashes(dir: string): (r: string)
    ensures r <= dir && (r == "" || r[|r| - 1] != '/') && forall i :: |r| <= i < |dir| ==> dir[i] == '/'
  {
    if dir != "" && dir[|dir| - 1] == '/' then StripSlashes(dir[..|dir| - 1]) else dir
  }

  predicate Under(dir: string, wanted: string) { dir == wanted || StripSlashes(wanted) + "/" <= dir }

  predicate UnderAny(dir: string, wasm_dirs: seq<string>) {
    exists k :: 0 <= k < |wasm_dirs| && Under(dir, wasm_dirs[k])
  }

  /** The package of a name; names are distinct. */
  function Named(ws: seq<Package>, n: Name): (p: Package)
    requires n in Names(ws)
    ensures p in ws && p.name == n
  {
    if ws[0].name == n then ws[0]
    else
      assert n in Names(ws[1..]) by {
        var k :| 0 <= k < |ws| && ws[k].name == n;
        assert ws[1..][k - 1].name == n;
      }
      Named(ws[1..], n)
  }

  datatype Bucket = Test | Check | Wasm

  predicate Belongs(ws: seq<Package>, wasm_dirs: seq<string>, b: Bucket, n: Name)
    requires n in Names(ws)
  {
    var p := Named(ws, n);
    match b
    case Test => p.has_tests
    case Wasm => UnderAny(p.dir, wasm_dirs)
    case Check => !p.has_tests && !UnderAny(p.dir, wasm_dirs)
  }

  ghost predicate AllMembers(ws: seq<Package>, packages: seq<Name>) {
    forall k :: 0 <= k < |packages| ==> packages[k] in Names(ws)
  }

  function Dealt(ws: seq<Package>, wasm_dirs: seq<string>, b: Bucket, packages: seq<Name>): seq<Name>
    requires AllMembers(ws, packages)
  {
    if packages == [] then []
    else
      var n := packages[|packages| - 1];
      Dealt(ws, wasm_dirs, b, packages[..|packages| - 1]) + (if Belongs(ws, wasm_dirs, b, n) then [n] else [])
  }

  predicate Matched(ws: seq<Package>, wanted: string) {
    exists k :: 0 <= k < |ws| && Under(ws[k].dir, wanted)
  }

  lemma {:induction false} DealtAre(ws: seq<Package>, wasm_dirs: seq<string>, b: Bucket, packages: seq<Name>, n: Name)
    requires AllMembers(ws, packages)
    ensures n in Dealt(ws, wasm_dirs, b, packages) <==> n in packages && Belongs(ws, wasm_dirs, b, n)
  {
    if packages != [] {
      var front, last := packages[..|packages| - 1], packages[|packages| - 1];
      DealtAre(ws, wasm_dirs, b, front, n);
      assert packages == front + [last];
    }
  }

  /** The buckets cover the scope, nothing else is in them, and what is only checked is in neither other bucket. */
  lemma BucketsCover(ws: seq<Package>, wasm_dirs: seq<string>, packages: seq<Name>, n: Name)
    requires AllMembers(ws, packages)
    ensures var test := n in Dealt(ws, wasm_dirs, Test, packages);
            var check := n in Dealt(ws, wasm_dirs, Check, packages);
            var wasm := n in Dealt(ws, wasm_dirs, Wasm, packages);
            (n in packages <==> test || check || wasm) && !(check && (test || wasm)) &&
            (test <==> n in packages && Named(ws, n).has_tests)
    ensures n in Dealt(ws, wasm_dirs, Wasm, packages) <==>
              n in packages &&
              exists k :: 0 <= k < |wasm_dirs| &&
                (Named(ws, n).dir == wasm_dirs[k] || StripSlashes(wasm_dirs[k]) + "/" <= Named(ws, n).dir)
  {
    DealtAre(ws, wasm_dirs, Test, packages, n);
    DealtAre(ws, wasm_dirs, Check, packages, n);
    DealtAre(ws, wasm_dirs, Wasm, packages, n);
  }

  // ----- The resolver.

  predicate NameLe(a: Name, b: Name) { StringLe(a, b) }

  /** `sorted(...)` of a set. */
  method SortedNames(s: set<Name>) returns (r: seq<Name>)
    ensures (forall n :: n in r <==> n in s) && Sorted(r, NameLe)
  {
    var list := Listed(s);
    r := SortBy(list, NameLe);
    NamesOrdered();
    SortBySorted(list, NameLe);
    forall n ensures n in r <==> n in list {
      SameElements(list, NameLe, n);
    }
  }

  lemma NamesOrdered()
    ensures TotalPreorder(NameLe)
  {
    forall a, b ensures NameLe(a, b) || NameLe(b, a) {
      StringLeTotal(a, b);
    }
    forall a, b, c | NameLe(a, b) && NameLe(b, c) ensures NameLe(a, c) {
      StringLeTransitive(a, b, c);
    }
  }

  function SetOf(names: seq<Name>): set<Name> {
    set n | n in names
  }

  class Scope {
    const ws: seq<Package>
    var mode: Mode
    var seeds: seq<Name>
    var packages: seq<Name>
    var ignored: seq<string>
    var test_pkgs: seq<Name>
    var check_pkgs: seq<Name>
    var wasm_pkgs: seq<Name>

    constructor (ws: seq<Package>, mode: Mode)
      ensures this.ws == ws && this.mode == mode && seeds == packages == [] && ignored == []
      ensures test_pkgs == check_pkgs == wasm_pkgs == []
    {
      this.ws, this.mode := ws, mode;
      seeds, packages, ignored := [], [], [];
      test_pkgs, check_pkgs, wasm_pkgs := [], [], [];
    }

    ghost function View(): Plan
      reads this
    {
      Plan(mode, SetOf(seeds), SetOf(packages))
    }

    /** `split_buckets`: fails on a directory no package lies in, else deals every package in order. */
    method SplitBuckets(wasm_dirs: seq<string>) returns (r: Result<bool, ScopeError>)
      requires AllMembers(ws, packages)
      modifies this`test_pkgs, this`check_pkgs, this`wasm_pkgs
      ensures r.Ok? <==> forall k :: 0 <= k < |wasm_dirs| ==> Matched(ws, wasm_dirs[k])
      ensures r.Err? ==> test_pkgs == old(test_pkgs) && check_pkgs == old(check_pkgs) && wasm_pkgs == old(wasm_pkgs)
      ensures r.Ok? ==>
                test_pkgs == old(test_pkgs) + Dealt(ws, wasm_dirs, Test, packages) &&
                check_pkgs == old(check_pkgs) + Dealt(ws, wasm_dirs, Check, packages) &&
                wasm_pkgs == old(wasm_pkgs) + Dealt(ws, wasm_dirs, Wasm, packages)
    {
      for k := 0 to |wasm_dirs|
        modifies {}
        invariant forall j :: 0 <= j < k ==> Matched(ws, wasm_dirs[j])
      {
        if !Matched(ws, wasm_dirs[k]) {
          return Err(WasmDirUnmatched(wasm_dirs[k]));
        }
      }
      for i := 0 to |packages|
        invariant test_pkgs == old(test_pkgs) + Dealt(ws, wasm_dirs, Test, packages[..i])
        invariant check_pkgs == old(check_pkgs) + Dealt(ws, wasm_dirs, Check, packages[..i])
        invariant wasm_pkgs == old(wasm_pkgs) + Dealt(ws, wasm_dirs, Wasm, packages[..i])
      {
        assert packages[..i + 1][..i] == packages[..i];
        var p := Named(ws, packages[i]);
        var under_wasm := UnderAny(p.dir, wasm_dirs);
        if under_wasm {
          wasm_pkgs := wasm_pkgs + [packages[i]];
        }
        if p.has_tests {
          test_pkgs := test_pkgs + [packages[i]];
        } else if !under_wasm {
          check_pkgs := check_pkgs + [packages[i]];
        }
      }
      assert packages[..|packages|] == packages;
      return Ok(true);
    }
  }

  method FullScope(ws: seq<Package>) returns (scope: Scope)
    ensures fresh(scope) && scope.ws == ws && scope.View() == Plan(Full, {}, Names(ws))
  {
    scope := new Scope(ws, Full);
    var members := SortedNames(Names(ws));
    scope.packages := members;
    assert SetOf(members) == Names(ws) && SetOf(scope.seeds) == {};
  }

  /** The loop over the changed paths. */
  method ClassifyAll(ws: seq<Package>, cfg: Config, files: seq<string>)
    returns (r: Result<(set<Name>, seq<string>, seq<string>), ScopeError>)
    ensures r.Err? <==> FirstUnknown(ws, cfg, files).Some?
    ensures r.Err? ==> r.error == UnknownSeedTarget(FirstUnknown(ws, cfg, files).value)
    ensures r.Ok? ==>
              r.value.0 == Hits(ws, cfg, files) &&
              (forall path :: path in r.value.1 <==> path in files && Classify(ws, cfg, path).Orphan?) &&
              (forall path :: path in r.value.2 <==>
                path in files && (Classify(ws, cfg, path).Workflow? || Classify(ws, cfg, path).Ignored?))
  {
    var direct: set<Name>, orphans: seq<string>, ignored: seq<string> := {}, [], [];
    for i := 0 to |files|
      invariant direct == Hits(ws, cfg, files[..i]) && FirstUnknown(ws, cfg, files[..i]) == None
      invariant forall path :: path in orphans <==> path in files[..i] && Classify(ws, cfg, path).Orphan?
      invariant forall path :: path in ignored <==>
                  path in files[..i] && (Classify(ws, cfg, path).Workflow? || Classify(ws, cfg, path).Ignored?)
    {
      assert files[..i + 1][..i] == files[..i] && files[..i + 1] == files[..i] + [files[i]];
      var path := files[i];
      if ".github/" <= path {
        ignored := ignored + [path];
        continue;
      }
      if path == "Cargo.lock" || path == "Cargo.toml" {
        continue;
      }
      var seed := SeedTarget(cfg, cfg.seeds, path);
      if seed.Some? {
        if seed.value !in Names(ws) {
          UnknownStays(ws, cfg, files, i);
          return Err(UnknownSeedTarget(seed.value));
        }
        direct := direct + {seed.value};
        continue;
      }
      if IgnoredBy(cfg, path) {
        ignored := ignored + [path];
        continue;
      }
      var owner := OwnerOf(ws, path);
      if owner.Some? {
        direct := direct + {owner.value.name};
      } else {
        orphans := orphans + [path];
      }
    }
    assert files[..|files|] == files;
    return Ok((direct, orphans, ignored));
  }

  lemma {:induction false} UnknownStays(ws: seq<Package>, cfg: Config, files: seq<string>, i: nat)
    requires i < |files| && FirstUnknown(ws, cfg, files[..i]) == None && Classify(ws, cfg, files[i]).UnknownSeed?
    ensures FirstUnknown(ws, cfg, files) == Some(Classify(ws, cfg, files[i]).target)
  {
    var front := files[..|files| - 1];
    if i == |files| - 1 {
      assert files[..i] == front;
    } else {
      assert front[..i] == files[..i];
      UnknownStays(ws, cfg, front, i);
    }
  }

  /** The `--also` rules. */
  method PullAlso(ws: seq<Package>, also: seq<(Name, Name)>, packages: set<Name>) returns (r: set<Name>)
    ensures r == Pulled(ws, also, packages)
  {
    r := packages;
    for i := 0 to |also|
      invariant r == Pulled(ws, also[..i], packages)
    {
      assert also[..i + 1][..i] == also[..i];
      if also[i].0 in r && also[i].1 in Names(ws) && also[i].1 !in r {
        r := r + {also[i].1};
      }
    }
    assert also[..|also|] == also;
  }

  method DynamicScope(ws: seq<Package>, cfg: Config, direct: set<Name>, ignored: seq<string>) returns (scope: Scope)
    requires direct <= Names(ws)
    ensures fresh(scope) && scope.ws == ws && scope.ignored == ignored
    ensures scope.View() == Plan(Dynamic, direct, Pulled(ws, cfg.also, ClosureOf(ws, direct)))
  {
    var dependents := LoadDependents(ws);
    GraphIsUnique(dependents, ws);
    var affected := Closure(dependents, direct);
    assert affected == ClosureOf(ws, direct);
    var packages := PullAlso(ws, cfg.also, affected);
    scope := new Scope(ws, Dynamic);
    scope.ignored := ignored;
    var seeds := SortedNames(direct);
    var names := SortedNames(packages);
    scope.seeds, scope.packages := seeds, names;
    assert SetOf(seeds) == direct && SetOf(names) == packages;
  }

  /** `resolve`. */
  method Resolve(ws: seq<Package>, cfg: Config, files: seq<string>) returns (r: Result<Scope, ScopeError>)
    ensures r.Err? <==> Resolved(ws, cfg, files).Err?
    ensures r.Err? ==> r.error == Resolved(ws, cfg, files).error
    ensures r.Ok? ==> fresh(r.value) && r.value.ws == ws && r.value.View() == Resolved(ws, cfg, files).value
    ensures r.Ok? ==> AllMembers(ws, r.value.packages)
  {
    if files == [] {
      var empty := new Scope(ws, Skip);
      assert empty.View() == Plan(Skip, {}, {});
      return Ok(empty);
    }
    if MovesEverything(cfg, files) {
      var full := FullScope(ws);
      return Ok(full);
    }
    var classified := ClassifyAll(ws, cfg, files);
    if classified.Err? {
      return Err(classified.error);
    }
    var (hits, orphans, ignored) := classified.value;
    var direct := hits + Consumers(ws, Touched(cfg, files));
    HitsAreMembers(ws, cfg, files);
    OrphansAre(ws, cfg, files, orphans);
    if exists k :: 0 <= k < |orphans| && IsCode(orphans[k]) {
      var full := FullScope(ws);
      return Ok(full);
    }
    if direct == {} {
      var skip := new Scope(ws, Skip);
      skip.ignored := ignored + orphans;
      assert skip.View() == Plan(Skip, {}, {});
      return Ok(skip);
    }
    var scope := DynamicScope(ws, cfg, direct, ignored);
    PlanIsInsideWorkspace(ws, cfg, files);
    return Ok(scope);
  }

  lemma OrphansAre(ws: seq<Package>, cfg: Config, files: seq<string>, orphans: seq<string>)
    requires forall path :: path in orphans <==> path in files && Classify(ws, cfg, path).Orphan?
    ensures (exists k :: 0 <= k < |orphans| && IsCode(orphans[k])) <==> AnyCodeOrphan(ws, cfg, files)
  {
    if k :| 0 <= k < |orphans| && IsCode(orphans[k]) {
      assert orphans[k] in orphans;
      var j :| 0 <= j < |files| && files[j] == orphans[k];
      assert CodeOrphan(ws, cfg, files[j]);
    }
    if AnyCodeOrphan(ws, cfg, files) {
      var k :| 0 <= k < |files| && CodeOrphan(ws, cfg, files[k]);
      assert files[k] in orphans;
      var j :| 0 <= j < |orphans| && orphans[j] == files[k];
      assert IsCode(orphans[j]);
    }
  }

}
