/** The architecture checker's import rules: every enclosing layer's bans add up. */
module LayerRules {
  import opened Common

  /** A file's place below its root, or a module, split into its parts. */
  type Path = seq<string>

  datatype Rule = Rule(layer: Path, forbidden: seq<Path>)
  /** Why an import is refused. */
  datatype Reason = OfLayer(layer: Path) | OfFile | OfSessions | OfDiscovery
  datatype Ban = Ban(prefix: Path, reason: Reason)

  /** The rules, each layer once, and those for single files. */
  datatype Rules = Rules(layers: seq<Rule>, files: map<Path, seq<Path>>)

  const COMPOSITION_ROOT := ["gateway", "container.py"]
  const ADAPTERS_PACKAGE := ["gateway", "adapters"]
  const ADAPTER_IMPORT := ["gateway", "adapters"]
  const SESSION_ACCESSOR_IMPORT := ["gateway", "core", "unit_of_work", "session_for"]
  const SESSION_ACCESSOR_PACKAGE := ["gateway", "repositories"]
  const ATTACH_POINT := ["otari_agent", "cli.py"]
  const ATTACH_IMPORT := ["gateway", "cli"]
  const DISCOVERY_SCOPE := {"gateway", "otari_agent", "any_search", "any_fetch"}
  const DISCOVERY_IMPORTS := [["importlib", "metadata"], ["importlib_metadata"], ["pkg_resources"]]

  // ---- the bans one file answers to ----------------------------------------------------------------------------

  /** Into a sequence ordered by length, the longest layer first. */
  function Insert(matches: seq<Rule>, rule: Rule): (r: seq<Rule>)
    ensures multiset(r) == multiset(matches) + multiset{rule}
  {
    if matches == [] || |matches[0].layer| <= |rule.layer| then [rule] + matches
    else
      assert matches == [matches[0]] + matches[1..];
      [matches[0]] + Insert(matches[1..], rule)
  }

  /** The rules of the layers around a file, the closest first. */
  function Around(layers: seq<Rule>, file: Path): seq<Rule> {
    if layers == [] then []
    else
      var rest, last := Around(layers[..|layers| - 1], file), layers[|layers| - 1];
      if last.layer < file then Insert(rest, last) else rest
  }

  function BansOf(prefixes: seq<Path>, reason: Reason): seq<Ban> {
    seq(|prefixes|, i requires 0 <= i < |prefixes| => Ban(prefixes[i], reason))
  }

  function LayerBans(matches: seq<Rule>): seq<Ban> {
    if matches == [] then [] else BansOf(matches[0].forbidden, OfLayer(matches[0].layer)) + LayerBans(matches[1..])
  }

  function FileBans(rules: Rules, file: Path): seq<Ban> {
    if file in rules.files then BansOf(rules.files[file], OfFile) else []
  }

  /** The composition root and the adapters may name an adapter; the repositories may name the session accessor. */
  predicate IsExempt(file: Path, prefix: Path) {
    (prefix == ADAPTER_IMPORT && (file == COMPOSITION_ROOT || ADAPTERS_PACKAGE < file))
    || (prefix == SESSION_ACCESSOR_IMPORT && SESSION_ACCESSOR_PACKAGE < file)
  }

  function Applied(bans: seq<Ban>, file: Path): seq<Ban> {
    if bans == [] then []
    else
      var first := bans[0];
      (if IsExempt(file, first.prefix) then []
       else if first.prefix == SESSION_ACCESSOR_IMPORT then [first.(reason := OfSessions)] else [first])
      + Applied(bans[1..], file)
  }

  function DiscoveryBans(file: Path): seq<Ban> {
    if |file| > 1 && file[0] in DISCOVERY_SCOPE then BansOf(DISCOVERY_IMPORTS, OfDiscovery) else []
  }

  /** The bans in the order they are tried. */
  function Bans(rules: Rules, file: Path): seq<Ban> {
    Applied(FileBans(rules, file) + LayerBans(Around(rules.layers, file)), file) + DiscoveryBans(file)
  }

  // ---- one import statement -------------------------------------------------------------------------------------

  function FirstBan(bans: seq<Ban>, mod: Path): (ban: Option<Ban>)
    ensures ban.Some? ==> ban.value in bans && ban.value.prefix <= mod
    ensures ban.None? ==> forall b :: b in bans ==> !(b.prefix <= mod)
  {
    if bans == [] then None else if bans[0].prefix <= mod then Some(bans[0]) else FirstBan(bans[1..], mod)
  }

  predicate IsAttachment(file: Path, mod: Path) {
    file == ATTACH_POINT && ATTACH_IMPORT <= mod
  }

  datatype Violation = Violation(statement: nat, mod: Path, reason: Reason)

  /** A statement is refused for the first of its modules that is. */
  function Offence(bans: seq<Ban>, file: Path, modules: seq<Path>): Option<(Path, Reason)> {
    if modules == [] then None
    else if !IsAttachment(file, modules[0]) && FirstBan(bans, modules[0]).Some? then
      Some((modules[0], FirstBan(bans, modules[0]).value.reason))
    else Offence(bans, file, modules[1..])
  }

  /** One statement after another, in the order the tree is walked. */
  method CheckFile(rules: Rules, file: Path, statements: seq<seq<Path>>) returns (violations: seq<Violation>)
    ensures forall v :: v in violations <==>
      v.statement < |statements| && Offence(Bans(rules, file), file, statements[v.statement]) == Some((v.mod, v.reason))
    ensures forall i, j :: 0 <= i < j < |violations| ==> violations[i].statement < violations[j].statement
  {
    hide Bans, Offence;
    var bans := Bans(rules, file);
    violations := [];
    var i := 0;
    while i < |statements|
      invariant 0 <= i <= |statements|
      invariant forall v :: v in violations <==>
        v.statement < i && Offence(bans, file, statements[v.statement]) == Some((v.mod, v.reason))
      invariant forall a, b :: 0 <= a < b < |violations| ==> violations[a].statement < violations[b].statement
    {
      var offence := OffenceOf(bans, file, statements[i]);
      if offence.Some? {
        assert forall v :: v in violations ==> v.statement < i;
        violations := violations + [Violation(i, offence.value.0, offence.value.1)];
      }
      i := i + 1;
    }
  }

  method OffenceOf(bans: seq<Ban>, file: Path, modules: seq<Path>) returns (offence: Option<(Path, Reason)>)
    ensures offence == Offence(bans, file, modules)
  {
    var i := 0;
    while i < |modules|
      invariant 0 <= i <= |modules| && Offence(bans, file, modules) == Offence(bans, file, modules[i..])
    {
      assert modules[i..][1..] == modules[i + 1..];
      if !IsAttachment(file, modules[i]) {
        var ban := FirstBan(bans, modules[i]);
        if ban.Some? {
          return Some((modules[i], ban.value.reason));
        }
      }
      i := i + 1;
    }
    return None;
  }

  // ---- what is refused ------------------------------------------------------------------------------------------

  /** The light command line may attach the gateway's. */
  ghost predicate MayAttach(file: Path, mod: Path) {
    file == ["otari_agent", "cli.py"] && ["gateway", "cli"] <= mod
  }

  /** The container and the adapters may name the adapters, and the repositories the session accessor. */
  ghost predicate MayName(file: Path, prefix: Path) {
    || (prefix == ["gateway", "adapters"] && (file == ["gateway", "container.py"] || ["gateway", "adapters"] < file))
    || (prefix == ["gateway", "core", "unit_of_work", "session_for"] && ["gateway", "repositories"] < file)
  }

  /** The gateway, the agent and the two libraries may not look up installed packages. */
  ghost predicate DiscoveryRefuses(prefix: Path, file: Path, mod: Path) {
    && |file| > 1
    && (file[0] == "gateway" || file[0] == "otari_agent" || file[0] == "any_search" || file[0] == "any_fetch")
    && (prefix == ["importlib", "metadata"] || prefix == ["importlib_metadata"] || prefix == ["pkg_resources"])
    && prefix <= mod
  }

  /** Some layer around the file, the file's own rule, or the ban on discovery refuses the module. */
  ghost predicate Refuses(rules: Rules, file: Path, mod: Path) {
    !MayAttach(file, mod)
    && ((exists rule, prefix :: rule in rules.layers && LayerRefuses(rule, prefix, file, mod))
        || (file in rules.files
            && exists prefix :: prefix in rules.files[file] && prefix <= mod && !MayName(file, prefix))
        || exists prefix :: DiscoveryRefuses(prefix, file, mod))
  }

  ghost predicate LayerRefuses(rule: Rule, prefix: Path, file: Path, mod: Path) {
    rule.layer < file && prefix in rule.forbidden && prefix <= mod && !MayName(file, prefix)
  }

  lemma ExemptionsAre(file: Path, mod: Path)
    ensures IsAttachment(file, mod) <==> MayAttach(file, mod)
    ensures forall prefix :: IsExempt(file, prefix) <==> MayName(file, prefix)
    ensures forall prefix :: DiscoveryRefuses(prefix, file, mod) <==>
      |file| > 1 && file[0] in DISCOVERY_SCOPE && prefix in DISCOVERY_IMPORTS && prefix <= mod
  {
  }

  lemma {:induction false} InAround(layers: seq<Rule>, file: Path, rule: Rule)
    ensures rule in Around(layers, file) <==> rule in layers && rule.layer < file
  {
    if layers != [] {
      var rest, last := layers[..|layers| - 1], layers[|layers| - 1];
      InAround(rest, file, rule);
      assert layers == rest + [last];
      assert rule in Around(layers, file) <==> rule in multiset(Around(layers, file));
    }
  }

  lemma {:induction false} InLayerBans(matches: seq<Rule>, ban: Ban)
    ensures ban in LayerBans(matches) <==>
      exists rule :: rule in matches && ban.reason == OfLayer(rule.layer) && ban.prefix in rule.forbidden
  {
    if matches != [] {
      InLayerBans(matches[1..], ban);
      InBansOf(matches[0].forbidden, OfLayer(matches[0].layer), ban);
      assert forall r :: r in matches <==> r == matches[0] || r in matches[1..];
    }
  }

  lemma InBansOf(prefixes: seq<Path>, reason: Reason, ban: Ban)
    ensures ban in BansOf(prefixes, reason) <==> ban.prefix in prefixes && ban.reason == reason
  {
    if ban.prefix in prefixes && ban.reason == reason {
      var i :| 0 <= i < |prefixes| && prefixes[i] == ban.prefix;
      assert BansOf(prefixes, reason)[i] == ban;
    }
  }

  lemma {:induction false} InApplied(bans: seq<Ban>, file: Path, mod: Path)
    ensures (exists b :: b in Applied(bans, file) && b.prefix <= mod) <==>
      exists b :: b in bans && b.prefix <= mod && !IsExempt(file, b.prefix)
  {
    if bans != [] {
      InApplied(bans[1..], file, mod);
      var first := bans[0];
      assert forall b :: b in bans <==> b == first || b in bans[1..];
      if first.prefix <= mod && !IsExempt(file, first.prefix) {
        assert Applied(bans, file)[0].prefix == first.prefix;
        assert Applied(bans, file)[0] in Applied(bans, file);
      }
    }
  }

  ghost predicate IsOfALayer(rules: Rules, file: Path, ban: Ban) {
    exists r :: r in rules.layers && r.layer < file && ban.reason == OfLayer(r.layer) && ban.prefix in r.forbidden
  }

  predicate IsOfTheFile(rules: Rules, file: Path, ban: Ban) {
    file in rules.files && ban.prefix in rules.files[file] && ban.reason == OfFile
  }

  predicate IsOfDiscovery(file: Path, ban: Ban) {
    |file| > 1 && file[0] in DISCOVERY_SCOPE && ban.prefix in DISCOVERY_IMPORTS && ban.reason == OfDiscovery
  }

  /** A module is banned exactly when one of the layers around the file, its own rule or the discovery ban does so. */
  lemma BannedWhenRefused(rules: Rules, file: Path, mod: Path)
    ensures !IsAttachment(file, mod) && FirstBan(Bans(rules, file), mod).Some? <==> Refuses(rules, file, mod)
  {
    hide IsExempt, IsAttachment, Applied, Around, LayerBans, BansOf;
    var matches := Around(rules.layers, file);
    var listed := FileBans(rules, file) + LayerBans(matches);
    InApplied(listed, file, mod);
    forall b ensures b in listed <==> b in FileBans(rules, file) || IsOfALayer(rules, file, b) {
      InLayerBans(matches, b);
      forall r ensures r in matches <==> r in rules.layers && r.layer < file {
        InAround(rules.layers, file, r);
      }
    }
    forall b ensures b in FileBans(rules, file) <==> IsOfTheFile(rules, file, b) {
      if file in rules.files {
        InBansOf(rules.files[file], OfFile, b);
      }
    }
    forall b ensures b in DiscoveryBans(file) <==> IsOfDiscovery(file, b) {
      InBansOf(DISCOVERY_IMPORTS, OfDiscovery, b);
    }
    BannedEitherWay(rules, file, mod, listed);
  }

  lemma BannedEitherWay(rules: Rules, file: Path, mod: Path, listed: seq<Ban>)
    requires listed == FileBans(rules, file) + LayerBans(Around(rules.layers, file))
    requires (exists b :: b in Applied(listed, file) && b.prefix <= mod) <==>
      exists b :: b in listed && b.prefix <= mod && !IsExempt(file, b.prefix)
    requires forall b :: b in listed <==> b in FileBans(rules, file) || IsOfALayer(rules, file, b)
    requires forall b :: b in FileBans(rules, file) <==> IsOfTheFile(rules, file, b)
    requires forall b :: b in DiscoveryBans(file) <==> IsOfDiscovery(file, b)
    ensures !IsAttachment(file, mod) && FirstBan(Bans(rules, file), mod).Some? <==> Refuses(rules, file, mod)
  {
    ExemptionsAre(file, mod);
    hide IsExempt, IsAttachment, MayName, MayAttach, DiscoveryRefuses;
    hide Applied, Around, LayerBans, BansOf, FileBans, DiscoveryBans;
    var applied := Applied(listed, file);
    assert forall b :: b in Bans(rules, file) <==> b in applied || b in DiscoveryBans(file);
    if rule, prefix :| rule in rules.layers && LayerRefuses(rule, prefix, file, mod) {
      assert Ban(prefix, OfLayer(rule.layer)) in listed;
    }
    if file in rules.files && exists prefix :: prefix in rules.files[file] && prefix <= mod && !MayName(file, prefix) {
      var prefix :| prefix in rules.files[file] && prefix <= mod && !MayName(file, prefix);
      assert Ban(prefix, OfFile) in listed;
    }
    if prefix :| prefix in DISCOVERY_IMPORTS && prefix <= mod && |file| > 1 && file[0] in DISCOVERY_SCOPE {
      assert Ban(prefix, OfDiscovery) in DiscoveryBans(file);
    }
    if b :| b in listed && b.prefix <= mod && !IsExempt(file, b.prefix) {
      if b !in FileBans(rules, file) {
        var r :| r in rules.layers && r.layer < file && b.reason == OfLayer(r.layer) && b.prefix in r.forbidden;
        assert LayerRefuses(r, b.prefix, file, mod);
      }
    }
  }

  /** A statement is refused exactly when one of its modules is. */
  lemma {:induction false} OffenceWhenRefused(rules: Rules, file: Path, modules: seq<Path>)
    ensures Offence(Bans(rules, file), file, modules).Some? <==> exists m :: m in modules && Refuses(rules, file, m)
  {
    hide Bans, Refuses;
    if modules != [] {
      BannedWhenRefused(rules, file, modules[0]);
      OffenceWhenRefused(rules, file, modules[1..]);
      assert forall m :: m in modules <==> m == modules[0] || m in modules[1..];
    }
  }

  /** A nested layer never permits what its parent refuses: with more rules, at least as much is refused. */
  lemma MoreRulesRefuseMore(rules: Rules, more: seq<Rule>, file: Path, modules: seq<Path>)
    requires Offence(Bans(rules, file), file, modules).Some?
    ensures Offence(Bans(rules.(layers := rules.layers + more), file), file, modules).Some?
  {
    var all := rules.(layers := rules.layers + more);
    OffenceWhenRefused(rules, file, modules);
    OffenceWhenRefused(all, file, modules);
    var m :| m in modules && Refuses(rules, file, m);
    hide Bans, MayName, MayAttach, DiscoveryRefuses;
    if rule, prefix :| rule in rules.layers && LayerRefuses(rule, prefix, file, m) {
      assert rule in all.layers;
    }
    assert Refuses(all, file, m);
  }

  // ---- the order of the rules -----------------------------------------------------------------------------------

  predicate IsDescending(matches: seq<Rule>) {
    forall i, j :: 0 <= i < j < |matches| ==> |matches[i].layer| > |matches[j].layer|
  }

  predicate DistinctLayers(layers: seq<Rule>) {
    forall i, j :: 0 <= i < j < |layers| ==> layers[i].layer != layers[j].layer
  }

  lemma {:induction false} InsertDescends(matches: seq<Rule>, rule: Rule)
    requires IsDescending(matches) && forall m :: m in matches ==> |m.layer| != |rule.layer|
    ensures IsDescending(Insert(matches, rule))
  {
    var r := Insert(matches, rule);
    if matches != [] && |matches[0].layer| > |rule.layer| {
      InsertDescends(matches[1..], rule);
      forall k | 0 < k < |r| ensures |r[k].layer| < |matches[0].layer| {
        assert r[k] in multiset(r[1..]);
        assert r[k] in matches[1..] || r[k] == rule;
      }
    }
  }

  /** Layers around one file are nested, so no two are equally long. */
  lemma {:induction false} AroundDescends(layers: seq<Rule>, file: Path)
    requires DistinctLayers(layers)
    ensures IsDescending(Around(layers, file))
  {
    if layers != [] {
      var rest, last := layers[..|layers| - 1], layers[|layers| - 1];
      AroundDescends(rest, file);
      if last.layer < file {
        forall m | m in Around(rest, file) ensures |m.layer| != |last.layer| {
          InAround(rest, file, m);
          assert m.layer == file[..|m.layer|] && last.layer == file[..|last.layer|];
        }
        InsertDescends(Around(rest, file), last);
      }
    }
  }

  lemma {:induction false} DescendingIsOne(a: seq<Rule>, b: seq<Rule>)
    requires IsDescending(a) && IsDescending(b) && forall r :: r in a <==> r in b
    ensures a == b
  {
    if a == [] {
      assert forall i :: 0 <= i < |b| ==> b[i] in b;
    } else {
      assert a[0] in b && (b != [] ==> b[0] in a);
      assert a[0] == b[0];
      forall r ensures r in a[1..] <==> r in b[1..] {
        assert r in a <==> r == a[0] || r in a[1..];
        assert r in b <==> r == b[0] || r in b[1..];
      }
      DescendingIsOne(a[1..], b[1..]);
    }
  }

  /** Nothing reported, the reasons included, depends on the order the rules are declared in. */
  lemma OrderDoesNotMatter(rules: Rules, others: Rules, file: Path)
    requires DistinctLayers(rules.layers) && DistinctLayers(others.layers) && rules.files == others.files
    requires forall r :: r in rules.layers <==> r in others.layers
    ensures Bans(rules, file) == Bans(others, file)
  {
    hide Around, Applied, LayerBans;
    forall r ensures r in Around(rules.layers, file) <==> r in Around(others.layers, file) {
      InAround(rules.layers, file, r);
      InAround(others.layers, file, r);
    }
    AroundDescends(rules.layers, file);
    AroundDescends(others.layers, file);
    DescendingIsOne(Around(rules.layers, file), Around(others.layers, file));
  }

  /** A refusal that names a layer names the closest one that refuses the module. */
  lemma ClosestLayerIsNamed(rules: Rules, file: Path, mod: Path, rule: Rule, prefix: Path)
    requires DistinctLayers(rules.layers) && rule in rules.layers && LayerRefuses(rule, prefix, file, mod)
    requires FirstBan(Bans(rules, file), mod).Some? && FirstBan(Bans(rules, file), mod).value.reason.OfLayer?
    ensures |FirstBan(Bans(rules, file), mod).value.reason.layer| >= |rule.layer|
  {
    hide IsExempt, IsAttachment, Around, LayerRefuses;
    var matches := Around(rules.layers, file);
    AroundDescends(rules.layers, file);
    InAround(rules.layers, file, rule);
    RefusesMeans(rule, prefix, file, mod);
    ClosestInList(FileBans(rules, file), matches, DiscoveryBans(file), file, mod, rule, prefix);
  }

  lemma RefusesMeans(rule: Rule, prefix: Path, file: Path, mod: Path)
    requires LayerRefuses(rule, prefix, file, mod)
    ensures rule.layer < file && prefix in rule.forbidden && prefix <= mod && !IsExempt(file, prefix)
  {
    ExemptionsAre(file, mod);
  }

  const ACCESSOR := ["gateway", "core", "unit_of_work", "session_for"]

  /** A rule of the kind the reason names refuses the module; the session accessor has a reason of its own. */
  ghost predicate IsTheReason(rules: Rules, file: Path, mod: Path, ban: Ban) {
    && ban.prefix <= mod
    && match ban.reason
       case OfSessions =>
         ban.prefix == ACCESSOR && !MayName(file, ban.prefix)
       case OfFile =>
         ban.prefix != ACCESSOR && !MayName(file, ban.prefix)
         && file in rules.files && ban.prefix in rules.files[file]
       case OfLayer(layer) =>
         ban.prefix != ACCESSOR
         && exists rule :: rule in rules.layers && rule.layer == layer && LayerRefuses(rule, ban.prefix, file, mod)
       case OfDiscovery => DiscoveryRefuses(ban.prefix, file, mod)
  }

  lemma {:induction false} AppliedFrom(bans: seq<Ban>, file: Path, ban: Ban)
    requires ban in Applied(bans, file)
    ensures !IsExempt(file, ban.prefix)
    ensures ban.reason == OfSessions || ban in bans
    ensures ban.prefix == SESSION_ACCESSOR_IMPORT ==> ban.reason == OfSessions
    ensures ban.reason == OfSessions && ban !in bans ==> ban.prefix == SESSION_ACCESSOR_IMPORT
  {
    hide IsExempt;
    if ban in Applied(bans[1..], file) {
      AppliedFrom(bans[1..], file, ban);
    }
  }

  /** A refusal gives its reason. */
  lemma ReasonIsGiven(rules: Rules, file: Path, mod: Path)
    requires FirstBan(Bans(rules, file), mod).Some?
    ensures IsTheReason(rules, file, mod, FirstBan(Bans(rules, file), mod).value)
  {
    var ban := FirstBan(Bans(rules, file), mod).value;
    var listed := FileBans(rules, file) + LayerBans(Around(rules.layers, file));
    ExemptionsAre(file, mod);
    hide IsExempt, MayName, DiscoveryRefuses, Applied, Around, LayerBans, BansOf;
    InBansOf(DISCOVERY_IMPORTS, OfDiscovery, ban);
    if ban !in DiscoveryBans(file) {
      AppliedFrom(listed, file, ban);
      InLayerBans(Around(rules.layers, file), ban);
      if file in rules.files {
        InBansOf(rules.files[file], OfFile, ban);
      }
      var around := Around(rules.layers, file);
      if rule :| rule in around && ban.reason == OfLayer(rule.layer) && ban.prefix in rule.forbidden {
        InAround(rules.layers, file, rule);
        assert LayerRefuses(rule, ban.prefix, file, mod);
      }
    }
  }

  lemma {:induction false} FirstOfTwo(a: seq<Ban>, b: seq<Ban>, mod: Path)
    ensures FirstBan(a + b, mod) == FirstBan(a, mod).Or(FirstBan(b, mod))
  {
    if a == [] {
      assert a + b == b;
    } else {
      assert (a + b)[1..] == a[1..] + b;
      FirstOfTwo(a[1..], b, mod);
    }
  }

  lemma {:induction false} AppliedToTwo(a: seq<Ban>, b: seq<Ban>, file: Path)
    ensures Applied(a + b, file) == Applied(a, file) + Applied(b, file)
  {
    hide IsExempt;
    if a == [] {
      assert a + b == b;
    } else {
      assert (a + b)[1..] == a[1..] + b;
      AppliedToTwo(a[1..], b, file);
    }
  }

  lemma ClosestInList(files: seq<Ban>, matches: seq<Rule>, discovery: seq<Ban>, file: Path, mod: Path, rule: Rule,
                      prefix: Path)
    requires IsDescending(matches) && rule in matches && prefix in rule.forbidden && prefix <= mod
    requires !IsExempt(file, prefix)
    requires forall b :: b in files ==> b.reason == OfFile
    ensures var first := FirstBan(Applied(files + LayerBans(matches), file) + discovery, mod);
      first.Some? && (first.value.reason.OfLayer? ==> |first.value.reason.layer| >= |rule.layer|)
  {
    hide IsExempt;
    AppliedToTwo(files, LayerBans(matches), file);
    FirstOfTwo(Applied(files + LayerBans(matches), file), discovery, mod);
    FirstOfTwo(Applied(files, file), Applied(LayerBans(matches), file), mod);
    ReasonsOfFiles(files, file);
    ClosestAmongLayers(matches, file, mod, rule, prefix);
  }

  lemma {:induction false} ReasonsOfFiles(files: seq<Ban>, file: Path)
    requires forall b :: b in files ==> b.reason == OfFile
    ensures forall b :: b in Applied(files, file) ==> !b.reason.OfLayer?
  {
    hide IsExempt;
    if files != [] {
      ReasonsOfFiles(files[1..], file);
    }
  }

  lemma {:induction false} ClosestAmongLayers(matches: seq<Rule>, file: Path, mod: Path, rule: Rule, prefix: Path)
    requires IsDescending(matches) && rule in matches && prefix in rule.forbidden && prefix <= mod
    requires !IsExempt(file, prefix)
    ensures var first := FirstBan(Applied(LayerBans(matches), file), mod);
      first.Some? && (first.value.reason.OfLayer? ==> |first.value.reason.layer| >= |rule.layer|)
  {
    hide IsExempt;
    var own := BansOf(matches[0].forbidden, OfLayer(matches[0].layer));
    AppliedToTwo(own, LayerBans(matches[1..]), file);
    FirstOfTwo(Applied(own, file), Applied(LayerBans(matches[1..]), file), mod);
    ReasonsOfOne(own, matches[0].layer, file);
    if rule == matches[0] {
      InBansOf(matches[0].forbidden, OfLayer(matches[0].layer), Ban(prefix, OfLayer(rule.layer)));
      InApplied(own, file, mod);
      assert Ban(prefix, OfLayer(rule.layer)) in own;
    } else {
      assert rule in matches[1..];
      ClosestAmongLayers(matches[1..], file, mod, rule, prefix);
      assert |matches[0].layer| >= |rule.layer|;
    }
  }

  lemma {:induction false} ReasonsOfOne(bans: seq<Ban>, layer: Path, file: Path)
    requires forall b :: b in bans ==> b.reason == OfLayer(layer)
    ensures forall b :: b in Applied(bans, file) ==> b.reason == OfLayer(layer) || b.reason == OfSessions
  {
    hide IsExempt;
    if bans != [] {
      ReasonsOfOne(bans[1..], layer, file);
    }
  }

  ghost predicate FileRefuses(rules: Rules, file: Path, mod: Path) {
    file in rules.files && exists prefix :: prefix in rules.files[file] && prefix <= mod && !MayName(file, prefix)
  }

  /** The file's own rule is named before any layer's, and the ban on discovery after both. */
  lemma OwnRuleIsNamedFirst(rules: Rules, file: Path, mod: Path)
    requires FirstBan(Bans(rules, file), mod).Some?
    ensures var reason := FirstBan(Bans(rules, file), mod).value.reason;
      && (FileRefuses(rules, file, mod) ==> reason == OfFile || reason == OfSessions)
      && (reason == OfDiscovery ==>
            forall rule, prefix :: rule in rules.layers ==> !LayerRefuses(rule, prefix, file, mod))
  {
    var own, layers := FileBans(rules, file), LayerBans(Around(rules.layers, file));
    ExemptionsAre(file, mod);
    hide IsExempt, MayName, Applied, Around, LayerBans, BansOf;
    AppliedToTwo(own, layers, file);
    FirstOfTwo(Applied(own, file) + Applied(layers, file), DiscoveryBans(file), mod);
    FirstOfTwo(Applied(own, file), Applied(layers, file), mod);
    if FileRefuses(rules, file, mod) {
      var prefix :| prefix in rules.files[file] && prefix <= mod && !MayName(file, prefix);
      InBansOf(rules.files[file], OfFile, Ban(prefix, OfFile));
      InApplied(own, file, mod);
      var ban := FirstBan(Applied(own, file), mod).value;
      AppliedFrom(own, file, ban);
      InBansOf(rules.files[file], OfFile, ban);
    }
    forall rule, prefix | rule in rules.layers && LayerRefuses(rule, prefix, file, mod)
      ensures FirstBan(Bans(rules, file), mod).value.reason != OfDiscovery
    {
      InAround(rules.layers, file, rule);
      InLayerBans(Around(rules.layers, file), Ban(prefix, OfLayer(rule.layer)));
      InApplied(layers, file, mod);
      var ban := FirstBan(Applied(own, file), mod).Or(FirstBan(Applied(layers, file), mod)).value;
      AppliedIsNoDiscovery(own, layers, file, ban, rules);
    }
  }

  lemma AppliedIsNoDiscovery(own: seq<Ban>, layers: seq<Ban>, file: Path, ban: Ban, rules: Rules)
    requires own == FileBans(rules, file) && layers == LayerBans(Around(rules.layers, file))
    requires ban in Applied(own, file) || ban in Applied(layers, file)
    ensures ban.reason != OfDiscovery
  {
    hide IsExempt, Applied, Around, LayerBans, BansOf;
    if ban in Applied(own, file) {
      AppliedFrom(own, file, ban);
      if file in rules.files {
        InBansOf(rules.files[file], OfFile, ban);
      }
    } else {
      AppliedFrom(layers, file, ban);
      InLayerBans(Around(rules.layers, file), ban);
    }
  }
}
