/** internal/orchestrator/orchestrator.go: RegisterCollectors with its closure addBCC,
    filterCollectors, and the split into tiers. */
module Registration {
  import opened Seqs
  import opened Orchestrator

  /** What registration depends on: the tool registry (name to category), the installed
      binaries, and the tier of the native tcpretrans probe (0 when unavailable). */
  datatype Env = Env(registry: map<string, string>, installed: set<string>, nativeTier: int)

  datatype Profile = Profile(collectors: seq<string>, extra: seq<string>)

  const TIER1: seq<Collector> := [
    Collector("system_info", "system", 1), Collector("cpu_utilization", "cpu", 1),
    Collector("memory_info", "memory", 1), Collector("disk_stats", "disk", 1),
    Collector("network_stats", "network", 1), Collector("process_info", "process", 1),
    Collector("container_info", "container", 1), Collector("gpu_pcie", "system", 1)]

  function Names(cs: seq<Collector>): (r: seq<string>)
    ensures |r| == |cs|
    ensures forall i :: 0 <= i < |cs| ==> r[i] == cs[i].name
  {
    seq(|cs|, i requires 0 <= i < |cs| => cs[i].name)
  }

  predicate IsTier1Name(name: string) { name in Names(TIER1) }

  /** The collector addBCC builds for a tool, if the tool can be used at all. */
  function Built(env: Env, tool: string): (r: seq<Collector>)
    ensures |r| <= 1
    ensures forall c :: c in r ==> c.name == tool
  {
    if tool == "tcpretrans" && env.nativeTier > 0 then [Collector("tcpretrans", "network", env.nativeTier)]
    else if tool in env.registry && tool in env.installed then [Collector(tool, env.registry[tool], 2)]
    else []
  }

  /** Tools in the order they are first asked for, Tier 1 names and repeats dropped. */
  function FirstAsked(tools: seq<string>): (r: seq<string>)
    ensures Distinct(r)
    ensures forall t :: t in r <==> t in tools && !IsTier1Name(t)
  {
    if tools == [] then []
    else
      var n := |tools| - 1;
      var front := FirstAsked(tools[..n]);
      assert forall t :: t in tools <==> t in tools[..n] || t == tools[n];
      if tools[n] in front || IsTier1Name(tools[n]) then front else front + [tools[n]]
  }

  function BuildAll(env: Env, tools: seq<string>): seq<Collector> {
    if tools == [] then [] else BuildAll(env, tools[..|tools| - 1]) + Built(env, tools[|tools| - 1])
  }

  lemma {:induction false} AskedGrows(tools: seq<string>, tool: string)
    ensures FirstAsked(tools + [tool]) ==
            FirstAsked(tools) + (if tool in FirstAsked(tools) || IsTier1Name(tool) then [] else [tool])
  {}

  lemma {:induction false} BuildAllGrows(env: Env, tools: seq<string>, tool: string)
    ensures BuildAll(env, tools + [tool]) == BuildAll(env, tools) + Built(env, tool)
    ensures BuildAll(env, tools + []) == BuildAll(env, tools)
  {
    assert (tools + [tool])[..|tools|] == tools && tools + [] == tools;
  }

  class Registrar {
    const env: Env
    var collectors: seq<Collector>
    var added: set<string>
    ghost var asked: seq<string>

    ghost predicate Valid()
      reads this
    {
      && collectors == TIER1 + BuildAll(env, FirstAsked(asked))
      && added == set t | t in FirstAsked(asked)
    }

    constructor (env: Env)
      ensures Valid() && asked == [] && this.env == env
    {
      this.env := env;
      collectors := TIER1;
      added := {};
      asked := [];
      new;
      assert BuildAll(env, FirstAsked([])) == [];
    }

    /** addBCC: skips duplicates and Tier 1 names. */
    method AddBCC(tool: string)
      requires Valid()
      modifies this
      ensures Valid() && asked == old(asked) + [tool]
    {
      hide Built, IsTier1Name, FirstAsked, BuildAll;
      AskedGrows(asked, tool);
      BuildAllGrows(env, FirstAsked(asked), tool);
      asked := asked + [tool];
      if tool in added || IsTier1Name(tool) {
        return;
      }
      added := added + {tool};
      collectors := collectors + Built(env, tool);
    }

    method AddAll(tools: seq<string>)
      requires Valid()
      modifies this
      ensures Valid() && asked == old(asked) + tools
    {
      hide Built, IsTier1Name, FirstAsked, BuildAll;
      for i := 0 to |tools|
        invariant Valid() && asked == old(asked) + tools[..i]
      {
        AddBCC(tools[i]);
        assert tools[..i + 1] == tools[..i] + [tools[i]];
      }
      assert tools[..|tools|] == tools;
    }
  }

  predicate AsksForAll(p: Profile) { |p.collectors| > 0 && p.collectors[0] == "all" }

  /** The tools a profile asks for; for "all" the registry is visited in any `order`. */
  ghost function Asked(p: Profile, order: seq<string>): seq<string> {
    (if AsksForAll(p) then order else p.collectors) + p.extra
  }

  /** RegisterCollectors. */
  method RegisterCollectors(env: Env, profile: Profile) returns (collectors: seq<Collector>)
    ensures exists order :: Enumerates(order, env.registry.Keys) &&
              collectors == TIER1 + BuildAll(env, FirstAsked(Asked(profile, order)))
  {
    hide FirstAsked, BuildAll;
    var reg := new Registrar(env);
    var order := Enumerate(env.registry.Keys);
    if AsksForAll(profile) {
      reg.AddAll(order);
    } else {
      reg.AddAll(profile.collectors);
    }
    reg.AddAll(profile.extra);
    assert reg.asked == Asked(profile, order) by {
      assert [] + order == order && [] + profile.collectors == profile.collectors;
    }
    return reg.collectors;
  }

  /** Every collector after the eight fixed ones was built for a tool asked for. */
  lemma {:induction false} BuildAllMembers(env: Env, tools: seq<string>, c: Collector)
    ensures c in BuildAll(env, tools) <==> c.name in tools && c in Built(env, c.name)
  {
    hide Built;
    if tools != [] {
      var n := |tools| - 1;
      BuildAllMembers(env, tools[..n], c);
      assert c.name in tools <==> c.name in tools[..n] || c.name == tools[n];
      assert c in Built(env, tools[n]) ==> c.name == tools[n];
    }
  }

  lemma {:induction false} BuildAllDistinct(env: Env, tools: seq<string>)
    requires Distinct(tools)
    ensures Distinct(Names(BuildAll(env, tools)))
  {
    hide Built;
    if tools != [] {
      var n := |tools| - 1;
      var front, last := BuildAll(env, tools[..n]), Built(env, tools[n]);
      BuildAllDistinct(env, tools[..n]);
      forall i | 0 <= i < |front| ensures front[i].name != tools[n] {
        assert front[i] in front;
        BuildAllMembers(env, tools[..n], front[i]);
      }
      var all := front + last;
      var names := Names(all);
      forall i, j | 0 <= i < j < |all| ensures names[i] != names[j] {
        assert all[i] == front[i];
        if j < |front| {
          assert all[j] == front[j];
          assert Names(front)[i] != Names(front)[j];
        } else {
          assert all[j] == last[j - |front|] && all[j] in last;
        }
      }
    }
  }

  /** Whatever the profile and its extra list ask for, repeats and all, and in whatever order
      the registry is visited, no two registered collectors share a name. */
  lemma {:induction false} RegisteredDistinct(env: Env, tools: seq<string>)
    ensures Distinct(Names(TIER1 + BuildAll(env, FirstAsked(tools))))
  {
    hide Built, BuildAll, FirstAsked;
    var built := BuildAll(env, FirstAsked(tools));
    BuildAllDistinct(env, FirstAsked(tools));
    var all := TIER1 + built;
    forall i, j | 0 <= i < j < |all| ensures Names(all)[i] != Names(all)[j] {
      if i < |TIER1| {
        assert all[i] == TIER1[i] && Names(TIER1)[i] == TIER1[i].name;
        if j < |TIER1| {
          assert all[j] == TIER1[j] && Names(TIER1)[j] == TIER1[j].name;
        } else {
          assert all[j] == built[j - |TIER1|];
          BuildAllMembers(env, FirstAsked(tools), built[j - |TIER1|]);
          assert !IsTier1Name(all[j].name);
        }
      } else {
        assert all[i] == built[i - |TIER1|] && all[j] == built[j - |TIER1|];
        assert Names(built)[i - |TIER1|] != Names(built)[j - |TIER1|];
      }
    }
  }

  /** Exactly the fixed collectors and the usable tools asked for are registered. */
  lemma {:induction false} RegisteredExactly(env: Env, tools: seq<string>, c: Collector)
    ensures c in TIER1 + BuildAll(env, FirstAsked(tools)) <==>
            c in TIER1 || (c.name in tools && !IsTier1Name(c.name) && c in Built(env, c.name))
  {
    hide Built, BuildAll;
    BuildAllMembers(env, FirstAsked(tools), c);
  }

  // ---------------------------------------------------------------------
  // filterCollectors and the tiers

  /** focusCategoryMap: every listed area but one names its own category. */
  function FocusCategory(area: string): string { if area == "stacks" then "stacktrace" else area }

  function FocusSet(focus: seq<string>): set<string> { set f | f in focus :: FocusCategory(f) }

  predicate Kept(profile: Profile, focus: seq<string>, c: Collector) {
    && c.tier != 0
    && (|profile.collectors| > 0 && profile.collectors[0] != "all" ==> c.name in profile.collectors)
    && (|focus| > 0 && c.tier > 1 ==> c.category in FocusSet(focus))
  }

  function Select(cs: seq<Collector>, p: Collector -> bool): seq<Collector> {
    if cs == [] then [] else Select(cs[..|cs| - 1], p) + (if p(cs[|cs| - 1]) then [cs[|cs| - 1]] else [])
  }

  function KeptBy(profile: Profile, focus: seq<string>): Collector -> bool { c => Kept(profile, focus, c) }

  method FilterCollectors(cs: seq<Collector>, profile: Profile, focus: seq<string>) returns (active: seq<Collector>)
    ensures active == Select(cs, KeptBy(profile, focus))
  {
    active := [];
    var focusCategories: set<string> := {};
    for i := 0 to |focus|
      invariant focusCategories == FocusSet(focus[..i])
    {
      assert focus[..i + 1] == focus[..i] + [focus[i]];
      focusCategories := focusCategories + {FocusCategory(focus[i])};
    }
    assert focus[..|focus|] == focus;
    assert |focusCategories| > 0 <==> |focus| > 0 by {
      if |focus| > 0 { assert FocusCategory(focus[0]) in focusCategories; }
    }
    for i := 0 to |cs|
      invariant active == Select(cs[..i], KeptBy(profile, focus))
    {
      var c := cs[i];
      assert cs[..i + 1][..i] == cs[..i];
      if c.tier == 0 {
        continue;
      }
      if |profile.collectors| > 0 && profile.collectors[0] != "all" {
        if c.name !in profile.collectors {
          continue;
        }
      }
      if |focusCategories| > 0 && c.tier > 1 {
        if c.category !in focusCategories {
          continue;
        }
      }
      active := active + [c];
    }
    assert cs[..|cs|] == cs;
  }

  predicate IsTier1(c: Collector) { c.tier == 1 }
  predicate IsNotTier1(c: Collector) { c.tier != 1 }

  /** The two slices Run fills from the active collectors. */
  method SplitTiers(active: seq<Collector>) returns (tier1: seq<Collector>, tier23: seq<Collector>)
    ensures tier1 == Select(active, IsTier1) && tier23 == Select(active, IsNotTier1)
  {
    tier1, tier23 := [], [];
    for i := 0 to |active|
      invariant tier1 == Select(active[..i], IsTier1) && tier23 == Select(active[..i], IsNotTier1)
    {
      assert active[..i + 1][..i] == active[..i];
      if active[i].tier == 1 {
        tier1 := tier1 + [active[i]];
      } else {
        tier23 := tier23 + [active[i]];
      }
    }
    assert active[..|active|] == active;
  }

  /** A selection keeps the order and adds nothing. */
  lemma {:induction false} SelectMembers(cs: seq<Collector>, p: Collector -> bool, c: Collector)
    ensures c in Select(cs, p) <==> c in cs && p(c)
  {
    if cs != [] {
      var n := |cs| - 1;
      SelectMembers(cs[..n], p, c);
      assert c in cs <==> c in cs[..n] || c == cs[n];
    }
  }

  lemma {:induction false} SelectMultiset(cs: seq<Collector>, p: Collector -> bool, c: Collector)
    ensures multiset(Select(cs, p))[c] == if p(c) then multiset(cs)[c] else 0
  {
    if cs != [] {
      var n := |cs| - 1;
      SelectMultiset(cs[..n], p, c);
      assert cs == cs[..n] + [cs[n]];
    }
  }

  lemma {:induction false} SelectPermutation(a: seq<Collector>, b: seq<Collector>, p: Collector -> bool)
    requires Permutation(a, b)
    ensures Permutation(Select(a, p), Select(b, p))
  {
    forall c ensures multiset(Select(a, p))[c] == multiset(Select(b, p))[c] {
      SelectMultiset(a, p, c);
      SelectMultiset(b, p, c);
    }
  }

  lemma {:induction false} SelectDistinct(cs: seq<Collector>, p: Collector -> bool)
    requires Distinct(Names(cs))
    ensures Distinct(Names(Select(cs, p)))
  {
    if cs != [] {
      var n := |cs| - 1;
      var front := Select(cs[..n], p);
      assert forall i :: 0 <= i < n ==> Names(cs[..n])[i] == Names(cs)[i];
      SelectDistinct(cs[..n], p);
      if p(cs[n]) {
        var all := front + [cs[n]];
        forall i, j | 0 <= i < j < |all| ensures Names(all)[i] != Names(all)[j] {
          if j < |front| {
            assert Names(front)[i] != Names(front)[j];
          } else {
            assert front[i] in front;
            SelectMembers(cs[..n], p, front[i]);
            var k :| 0 <= k < n && cs[k] == front[i];
            assert Names(cs)[k] != Names(cs)[n];
          }
        }
      }
    }
  }

  // ---------------------------------------------------------------------
  // Who runs

  /** The eight collectors that are always registered, with their categories. */
  ghost predicate Fixed(name: string, category: string) {
    || (name == "system_info" && category == "system") || (name == "cpu_utilization" && category == "cpu")
    || (name == "memory_info" && category == "memory") || (name == "disk_stats" && category == "disk")
    || (name == "network_stats" && category == "network") || (name == "process_info" && category == "process")
    || (name == "container_info" && category == "container") || (name == "gpu_pcie" && category == "system")
  }

  ghost predicate FixedName(name: string) { exists category :: Fixed(name, category) }

  lemma {:induction false} FixedIsTier1(c: Collector)
    ensures c in TIER1 <==> c.tier == 1 && Fixed(c.name, c.category)
  {}

  lemma {:induction false} FixedNames(name: string)
    ensures IsTier1Name(name) <==> FixedName(name)
  {
    if IsTier1Name(name) {
      var i :| 0 <= i < |TIER1| && TIER1[i].name == name;
      assert TIER1[i] in TIER1;
      FixedIsTier1(TIER1[i]);
      assert Fixed(name, TIER1[i].category);
    }
    if FixedName(name) {
      var category :| Fixed(name, category);
      FixedIsTier1(Collector(name, category, 1));
      var i :| 0 <= i < |TIER1| && TIER1[i] == Collector(name, category, 1);
      assert Names(TIER1)[i] == name;
    }
  }

  /** A tool that can run: the native probe where it loads, otherwise an installed tool of the
      registry, at Tier 2 and in the registry's category. */
  ghost predicate Usable(env: Env, c: Collector) {
    if c.name == "tcpretrans" && env.nativeTier > 0 then c.category == "network" && c.tier == env.nativeTier
    else c.name in env.registry && c.name in env.installed && c.category == env.registry[c.name] && c.tier == 2
  }

  lemma {:induction false} BuiltIsUsable(env: Env, c: Collector)
    ensures c in Built(env, c.name) <==> Usable(env, c)
  {}

  /** The profile wants the tool: it lists it, lists "all" first and the registry has it, or names
      it as an extra. */
  ghost predicate Wanted(env: Env, profile: Profile, tool: string) {
    || tool in profile.extra
    || (if |profile.collectors| > 0 && profile.collectors[0] == "all" then tool in env.registry else tool in profile.collectors)
  }

  /** A collector survives the filters: a profile that does not start with "all" must list it, and
      above Tier 1 it must be in focus, "stacks" standing for "stacktrace". */
  ghost predicate Admitted(profile: Profile, focus: seq<string>, c: Collector) {
    && (profile.collectors != [] && profile.collectors[0] != "all" ==> c.name in profile.collectors)
    && (focus != [] && c.tier > 1 ==>
          (c.category in focus && c.category != "stacks") || (c.category == "stacktrace" && "stacks" in focus))
  }

  lemma {:induction false} KeptIsAdmitted(profile: Profile, focus: seq<string>, c: Collector)
    ensures Kept(profile, focus, c) <==> c.tier != 0 && Admitted(profile, focus, c)
  {
    if c.category in FocusSet(focus) {
      var f :| f in focus && FocusCategory(f) == c.category;
    } else {
      assert forall f :: f in focus ==> FocusCategory(f) in FocusSet(focus);
    }
  }

  /** Exactly who runs, for any order of the registry: the eight fixed collectors and the usable
      tools the profile wants that carry none of their names, as far as the filters admit them. */
  lemma {:induction false} RunsExactly(env: Env, profile: Profile, focus: seq<string>, order: seq<string>, c: Collector)
    requires Enumerates(order, env.registry.Keys)
    ensures c in Select(TIER1 + BuildAll(env, FirstAsked(Asked(profile, order))), KeptBy(profile, focus)) <==>
            && ((c.tier == 1 && Fixed(c.name, c.category)) ||
                (Usable(env, c) && Wanted(env, profile, c.name) && !FixedName(c.name)))
            && Admitted(profile, focus, c)
  {
    hide Built, BuildAll, FirstAsked, Select, Fixed, FixedName, Usable, Admitted, TIER1, IsTier1Name;
    var tools := Asked(profile, order);
    SelectMembers(TIER1 + BuildAll(env, FirstAsked(tools)), KeptBy(profile, focus), c);
    RegisteredExactly(env, tools, c);
    FixedIsTier1(c);
    FixedNames(c.name);
    BuiltIsUsable(env, c);
    if Usable(env, c) { UsableTier(env, c); }
    KeptIsAdmitted(profile, focus, c);
    assert c.name in tools <==> Wanted(env, profile, c.name);
  }

  lemma {:induction false} UsableTier(env: Env, c: Collector)
    requires Usable(env, c)
    ensures c.tier != 0
  {}
}
