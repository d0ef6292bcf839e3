/** What a hot reload means for one plugin, for repeated reloads and for plugins that keep failing. */
module PluginOutcomes {
  import opened Wrappers
  import opened PluginState
  import opened PluginReload
  import PluginReloadProofs

  /** The new code of `c` can be put in place: resolved, compiled, built and loaded. */
  predicate Loads(c: Candidate) {
    c.path.Some? && c.compiles && c.load.built.Some? && c.load.loaded
  }

  /** `p` is a freshly loaded `c`: its own parameters and registrations, clean counters. */
  ghost predicate FreshlyLoaded(p: Plugin, c: Candidate)
    requires Loads(c)
  {
    exists counter: nat ::
      p == Plugin(c.load.tag, c.load.built.value, c.params, c.path.value, c.mtime, 0, 0,
                  RunOwn([], counter, c.load.calls).0)
  }

  // ----- one step, one plugin -----

  lemma ViewAddAt(v: View, c: Candidate, n: string)
    requires c.params.name !in v.plugins
    ensures
      var w := ViewAdd(v, c).plugins;
      if n == c.params.name then (n in w <==> Loads(c)) && (Loads(c) ==> FreshlyLoaded(w[n], c))
      else (n in w <==> n in v.plugins) && (n in w ==> w[n] == v.plugins[n])
  {
  }

  /** What replacing `p` by `c` leaves behind. */
  ghost predicate Replaced(p: Plugin, c: Candidate, limits: Limits, q: Plugin) {
    if p.reloadFailures >= limits.reloadFailures || c.path.None? || !c.compiles then q == p
    else if Loads(c) then FreshlyLoaded(q, c)
    else q == p.(reloadFailures := SaturatingIncrement(p.reloadFailures))
  }

  lemma ViewReloadAt(v: View, c: Candidate, limits: Limits, n: string)
    ensures
      var w := ViewReload(v, c, limits).plugins;
      && w.Keys == v.plugins.Keys
      && (n in v.plugins && n != c.params.name ==> w[n] == v.plugins[n])
      && (n in v.plugins && n == c.params.name ==> Replaced(v.plugins[n], c, limits, w[n]))
  {
  }

  // ----- a whole phase, one plugin -----

  function CandidateNamed(cs: seq<Candidate>, n: string): Option<Candidate> {
    if cs == [] then None
    else if cs[|cs| - 1].params.name == n then Some(cs[|cs| - 1])
    else CandidateNamed(cs[..|cs| - 1], n)
  }

  lemma {:induction false} NamedIn(cs: seq<Candidate>, n: string)
    ensures CandidateNamed(cs, n).Some? <==> n in NamesOf(cs)
    ensures CandidateNamed(cs, n).Some? ==>
      CandidateNamed(cs, n).value in cs && CandidateNamed(cs, n).value.params.name == n
  {
    if cs != [] {
      NamedIn(cs[..|cs| - 1], n);
      PluginReloadProofs.NamesOfInit(cs);
    }
  }

  lemma {:induction false} ViewAddAllAt(v: View, cs: seq<Candidate>, n: string)
    requires DistinctNames(cs) && NamesOf(cs) !! v.plugins.Keys
    ensures
      var w := ViewAddAll(v, cs).plugins;
      match CandidateNamed(cs, n)
      case None => (n in w <==> n in v.plugins) && (n in w ==> w[n] == v.plugins[n])
      case Some(c) => (n in w <==> Loads(c)) && (Loads(c) ==> FreshlyLoaded(w[n], c))
    decreases |cs|
  {
    if cs != [] {
      var init, c := cs[..|cs| - 1], cs[|cs| - 1];
      PluginReloadProofs.NamesOfInit(cs);
      ViewAddAllAt(v, init, n);
      ViewAddAllAt(v, init, c.params.name);
      NamedIn(init, c.params.name);
      NamedIn(init, n);
      assert c.params.name !in v.plugins;
      ViewAddAt(ViewAddAll(v, init), c, n);
    }
  }

  lemma {:induction false} ViewReloadEachAt(v: View, cs: seq<Candidate>, limits: Limits, n: string)
    requires DistinctNames(cs)
    ensures
      var w := ViewReloadEach(v, cs, limits).plugins;
      && w.Keys == v.plugins.Keys
      && (n in v.plugins ==>
            match CandidateNamed(cs, n)
            case None => w[n] == v.plugins[n]
            case Some(c) => Replaced(v.plugins[n], c, limits, w[n]))
    decreases |cs|
  {
    if cs != [] {
      var init, c := cs[..|cs| - 1], cs[|cs| - 1];
      PluginReloadProofs.NamesOfInit(cs);
      NamedIn(init, n);
      ViewReloadEachAt(v, init, limits, n);
      ViewReloadAt(ViewReloadEach(v, init, limits), c, limits, n);
    }
  }

  // ----- the phases of reload_all, one plugin -----

  lemma FilteredNamed(enabled: seq<Candidate>, known: set<string>, plugins: map<string, Plugin>, n: string)
    requires DistinctNames(enabled)
    ensures DistinctNames(ToAdd(enabled, known)) && DistinctNames(ViewToReload(enabled, plugins))
    ensures CandidateNamed(ToAdd(enabled, known), n)
         == if n in known then None else CandidateNamed(enabled, n)
    ensures CandidateNamed(ViewToReload(enabled, plugins), n)
         == match CandidateNamed(enabled, n)
            case None => None
            case Some(c) =>
              if n in plugins && Changed(c, plugins[n].params, plugins[n].path, plugins[n].mtime)
              then Some(c) else None
  {
    AddedNamed(enabled, known, n);
    ReloadedNamed(enabled, plugins, n);
  }

  lemma {:induction false} AddedNamed(enabled: seq<Candidate>, known: set<string>, n: string)
    requires DistinctNames(enabled)
    ensures DistinctNames(ToAdd(enabled, known))
    ensures CandidateNamed(ToAdd(enabled, known), n)
         == if n in known then None else CandidateNamed(enabled, n)
  {
    hide NamesOf;
    if enabled != [] {
      var c, rest := enabled[0], enabled[1..];
      TailDistinct(enabled);
      AddedNamed(rest, known, n);
      var added := ToAdd(rest, known);
      NotAmong(enabled, added);
      NotAmong(enabled, rest);
      ConsDistinct(c, added);
      HeadNamed(rest, c, n);
      HeadNamed(added, c, n);
      assert enabled == [c] + rest;
      NamedIn(rest, n);
      NamedIn(added, n);
    }
  }

  lemma TailDistinct(cs: seq<Candidate>)
    requires DistinctNames(cs) && cs != []
    ensures DistinctNames(cs[1..])
  {
  }

  lemma ConsDistinct(c: Candidate, cs: seq<Candidate>)
    requires DistinctNames(cs) && forall k | 0 <= k < |cs| :: cs[k].params.name != c.params.name
    ensures DistinctNames([c] + cs)
  {
  }

  lemma {:induction false} ReloadedNamed(enabled: seq<Candidate>, plugins: map<string, Plugin>, n: string)
    requires DistinctNames(enabled)
    ensures DistinctNames(ViewToReload(enabled, plugins))
    ensures CandidateNamed(ViewToReload(enabled, plugins), n)
         == match CandidateNamed(enabled, n)
            case None => None
            case Some(c) =>
              if n in plugins && Changed(c, plugins[n].params, plugins[n].path, plugins[n].mtime)
              then Some(c) else None
  {
    hide NamesOf, Changed;
    if enabled != [] {
      var c, rest := enabled[0], enabled[1..];
      TailDistinct(enabled);
      ReloadedNamed(rest, plugins, n);
      var reloaded := ViewToReload(rest, plugins);
      NotAmong(enabled, reloaded);
      NotAmong(enabled, rest);
      ConsDistinct(c, reloaded);
      HeadNamed(rest, c, n);
      HeadNamed(reloaded, c, n);
      assert enabled == [c] + rest;
      NamedIn(rest, n);
      NamedIn(reloaded, n);
    }
  }

  lemma NotAmong(enabled: seq<Candidate>, some: seq<Candidate>)
    requires DistinctNames(enabled) && enabled != []
    requires forall c | c in some :: c in enabled[1..]
    ensures forall k | 0 <= k < |some| :: some[k].params.name != enabled[0].params.name
    ensures enabled[0].params.name !in NamesOf(some)
  {
    forall k | 0 <= k < |some| ensures some[k].params.name != enabled[0].params.name {
      assert some[k] in some;
      var l :| 0 <= l < |enabled[1..]| && enabled[1..][l] == some[k];
      assert enabled[l + 1] == some[k];
    }
  }

  lemma {:induction false} HeadNamed(cs: seq<Candidate>, c: Candidate, n: string)
    ensures CandidateNamed([c] + cs, n)
         == match CandidateNamed(cs, n)
            case Some(d) => Some(d)
            case None => if c.params.name == n then Some(c) else None
    decreases |cs|
  {
    if cs == [] {
      assert [c] + cs == [c];
      assert CandidateNamed([c][..0], n) == None;
    } else {
      var init := cs[..|cs| - 1];
      HeadNamed(init, c, n);
      assert ([c] + cs)[..|cs|] == [c] + init;
    }
  }

  /**
   * `reload_all` for one plugin name: gone if no longer configured; untouched if nothing about it changed;
   * replaced, or kept with one more failure, if something did; new if it loads.
   */
  lemma ReloadAllPerPlugin(v: View, config: seq<Candidate>, limits: Limits, n: string)
    requires DistinctNames(Enabled(config))
    ensures
      var w := ViewReloadAll(v, config, limits).plugins;
      match CandidateNamed(Enabled(config), n)
      case None => n !in w
      case Some(c) =>
        if n !in v.plugins then (n in w <==> Loads(c)) && (Loads(c) ==> FreshlyLoaded(w[n], c))
        else
          var p := v.plugins[n];
          n in w && if Changed(c, p.params, p.path, p.mtime) then Replaced(p, c, limits, w[n]) else w[n] == p
  {
    var enabled := Enabled(config);
    var removed := ViewRemove(v, NamesOf(enabled));
    NamedIn(enabled, n);
    FilteredNamed(enabled, v.plugins.Keys, v.plugins, n);
    var toAdd := ToAdd(enabled, v.plugins.Keys);
    PluginReloadProofs.ToAddNames(enabled, v.plugins.Keys);
    ViewAddAllAt(removed, toAdd, n);
    ViewReloadEachAt(ViewAddAll(removed, toAdd), ViewToReload(enabled, v.plugins), limits, n);
  }

  // ----- the same, entry by entry of the configuration -----

  /** The enabled entries, in their order: `Enabled` of a list is put together from its entries. */
  lemma {:induction false} EnabledAppend(a: seq<Candidate>, b: seq<Candidate>)
    ensures Enabled(a + b) == Enabled(a) + Enabled(b)
  {
    if a == [] {
      assert a + b == b;
    } else {
      EnabledAppend(a[1..], b);
      assert (a + b)[1..] == a[1..] + b;
    }
  }

  /** A single entry is there if it is switched on. */
  lemma EnabledOne(c: Candidate)
    ensures Enabled([c]) == if c.enabled then [c] else []
  {
    assert [c][1..] == [];
  }

  /** No two entries that are switched on have one name. */
  predicate NoNameTwice(config: seq<Candidate>) {
    forall i, j | 0 <= i < j < |config| && config[i].enabled && config[j].enabled ::
      config[i].params.name != config[j].params.name
  }

  lemma {:induction false} EnabledMembers(config: seq<Candidate>, c: Candidate)
    ensures c in Enabled(config) <==> exists k :: 0 <= k < |config| && config[k] == c && c.enabled
    decreases |config|
  {
    if config != [] {
      var last := |config| - 1;
      assert config == config[..last] + [config[last]];
      EnabledAppend(config[..last], [config[last]]);
      EnabledOne(config[last]);
      EnabledMembers(config[..last], c);
      if k :| 0 <= k < |config[..last]| && config[..last][k] == c && c.enabled {
        assert config[k] == c;
      }
      if k :| 0 <= k < |config| && config[k] == c && c.enabled {
        assert k < last ==> config[..last][k] == c;
      }
    }
  }

  lemma {:induction false} EnabledDistinct(config: seq<Candidate>)
    requires NoNameTwice(config)
    ensures DistinctNames(Enabled(config))
    decreases |config|
  {
    if config != [] {
      var last := |config| - 1;
      var init, c := config[..last], config[last];
      assert config == init + [c];
      EnabledAppend(init, [c]);
      EnabledOne(c);
      EnabledDistinct(init);
      forall k | 0 <= k < |Enabled(init)| && c.enabled ensures Enabled(init)[k].params.name != c.params.name {
        var d := Enabled(init)[k];
        EnabledMembers(init, d);
        var l :| 0 <= l < |init| && init[l] == d && d.enabled;
        assert config[l] == d;
      }
    }
  }

  /** The plugin is exactly what the entry would load: parameters, file and modification time. */
  predicate Current(c: Candidate, p: Plugin) {
    c.params == p.params && c.path == Some(p.path) && c.mtime == p.mtime
  }

  /**
   * `reload_all` for one plugin name: gone if no entry switched on has it. With an entry it is new if that loads;
   * untouched if the entry describes it as it is or its file cannot be resolved; otherwise replaced, or kept with
   * one more failure.
   */
  lemma ReloadEntryByEntry(v: View, config: seq<Candidate>, limits: Limits, n: string, k: nat)
    requires NoNameTwice(config) && (n in v.plugins ==> v.plugins[n].params.name == n)
    ensures (forall l | 0 <= l < |config| && config[l].enabled :: config[l].params.name != n) ==>
      n !in ViewReloadAll(v, config, limits).plugins
    ensures k < |config| && config[k].enabled && config[k].params.name == n ==>
      var w, c := ViewReloadAll(v, config, limits).plugins, config[k];
      if n !in v.plugins then (n in w <==> Loads(c)) && (Loads(c) ==> FreshlyLoaded(w[n], c))
      else
        var p := v.plugins[n];
        n in w && if Current(c, p) || c.path.None? then w[n] == p else Replaced(p, c, limits, w[n])
  {
    hide ViewReloadAll, FreshlyLoaded, Replaced;
    var enabled := Enabled(config);
    EnabledDistinct(config);
    ReloadAllPerPlugin(v, config, limits, n);
    NamedIn(enabled, n);
    var named := CandidateNamed(enabled, n);
    if k < |config| && config[k].enabled && config[k].params.name == n {
      EnabledMembers(config, config[k]);
      NameListed(enabled, config[k]);
    }
    if named.Some? {
      EnabledMembers(config, named.value);
      var l :| 0 <= l < |config| && config[l] == named.value && config[l].enabled;
    }
  }

  lemma NameListed(cs: seq<Candidate>, c: Candidate)
    requires c in cs
    ensures c.params.name in NamesOf(cs)
  {
    var m :| 0 <= m < |cs| && cs[m] == c;
  }

  // ----- consequences over several reloads -----

  /** Everything the configuration names is in place and as configured. */
  ghost predicate UpToDate(v: View, config: seq<Candidate>) {
    forall n :: PluginUpToDate(v, config, n)
  }

  predicate PluginUpToDate(v: View, config: seq<Candidate>, n: string) {
    match CandidateNamed(Enabled(config), n)
    case None => n !in v.plugins
    case Some(c) =>
      n in v.plugins && var p := v.plugins[n]; !Changed(c, p.params, p.path, p.mtime)
  }

  /** With everything up to date there is nothing to remove, to add or to reload. */
  lemma UpToDateLists(v: View, config: seq<Candidate>)
    requires DistinctNames(Enabled(config)) && UpToDate(v, config)
    ensures v.plugins.Keys <= NamesOf(Enabled(config))
    ensures ToAdd(Enabled(config), v.plugins.Keys) == [] && ViewToReload(Enabled(config), v.plugins) == []
  {
    var enabled := Enabled(config);
    forall n | n in v.plugins ensures n in NamesOf(enabled) {
      assert PluginUpToDate(v, config, n);
      NamedIn(enabled, n);
    }
    var toAdd, toReload := ToAdd(enabled, v.plugins.Keys), ViewToReload(enabled, v.plugins);
    if toAdd != [] {
      var n := toAdd[0].params.name;
      assert PluginUpToDate(v, config, n);
      NamedIn(toAdd, n);
      FilteredNamed(enabled, v.plugins.Keys, v.plugins, n);
      assert false;
    }
    if toReload != [] {
      var n := toReload[0].params.name;
      assert PluginUpToDate(v, config, n);
      NamedIn(toReload, n);
      FilteredNamed(enabled, v.plugins.Keys, v.plugins, n);
      assert false;
    }
  }

  /** Reloading an up-to-date host changes nothing that shows by name. */
  lemma ReloadUpToDate(v: View, config: seq<Candidate>, limits: Limits)
    requires DistinctNames(Enabled(config)) && UpToDate(v, config)
    ensures ViewReloadAll(v, config, limits) == v
  {
    UpToDateLists(v, config);
    assert ViewRemove(v, NamesOf(Enabled(config))) == v;
  }

  /** One reload in which every configured plugin can be loaded makes the next one a no-op. */
  lemma ReloadAllSettles(v: View, config: seq<Candidate>, limits: Limits)
    requires DistinctNames(Enabled(config))
    requires forall c | c in Enabled(config) :: Loads(c)
    requires forall n | n in v.plugins :: v.plugins[n].reloadFailures < limits.reloadFailures
    ensures UpToDate(ViewReloadAll(v, config, limits), config)
    ensures ViewReloadAll(ViewReloadAll(v, config, limits), config, limits) == ViewReloadAll(v, config, limits)
  {
    var w := ViewReloadAll(v, config, limits);
    forall n ensures PluginUpToDate(w, config, n) {
      ReloadAllPerPlugin(v, config, limits, n);
      NamedIn(Enabled(config), n);
    }
    ReloadUpToDate(w, config, limits);
  }

  function ReloadRun(v: View, configs: seq<seq<Candidate>>, limits: Limits): View
    decreases |configs|
  {
    if configs == [] then v
    else ViewReloadAll(ReloadRun(v, configs[..|configs| - 1], limits), configs[|configs| - 1], limits)
  }

  /**
   * Once a plugin's failures reach the threshold, no run of reloads ever touches it again, whatever its files
   * become, as long as the configurations go on naming it.
   */
  lemma {:induction false} BlockedForGood(v: View, configs: seq<seq<Candidate>>, limits: Limits, n: string)
    requires n in v.plugins && v.plugins[n].reloadFailures >= limits.reloadFailures
    requires forall k | 0 <= k < |configs| ::
      DistinctNames(Enabled(configs[k])) && n in NamesOf(Enabled(configs[k]))
    ensures n in ReloadRun(v, configs, limits).plugins
    ensures ReloadRun(v, configs, limits).plugins[n] == v.plugins[n]
    decreases |configs|
  {
    if configs != [] {
      var last := |configs| - 1;
      BlockedForGood(v, configs[..last], limits, n);
      NamedIn(Enabled(configs[last]), n);
      ReloadAllPerPlugin(ReloadRun(v, configs[..last], limits), configs[last], limits, n);
    }
  }

  /** No plugin ever holds more than eight ticks, two under one name, or one outside the interval bounds. */
  ghost predicate AllDisciplined(v: View) {
    forall n | n in v.plugins :: Disciplined(v.plugins[n].ticks)
  }

  lemma ReloadAllDisciplined(v: View, config: seq<Candidate>, limits: Limits)
    requires DistinctNames(Enabled(config)) && AllDisciplined(v)
    ensures AllDisciplined(ViewReloadAll(v, config, limits))
  {
    var w := ViewReloadAll(v, config, limits);
    forall n | n in w.plugins ensures Disciplined(w.plugins[n].ticks) {
      ReloadAllPerPlugin(v, config, limits, n);
      var c := CandidateNamed(Enabled(config), n).value;
      forall counter: nat ensures Disciplined(RunOwn([], counter, c.load.calls).0) {
        CallsKeepDiscipline([], counter, c.load.calls);
      }
    }
  }
}
