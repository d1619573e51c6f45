// Ingest options: complete sets resolved from layers that each deviate from the ones below.
module Options {
  import opened Text

  /** Option group to option name to value. Values are opaque but for their checks. */
  type Group<V> = map<string, V>
  type Layer<V> = map<string, Group<V>>

  /** The declared options: a check for each, the task's default for each, and what one
      format wants different. */
  datatype Tables<!V> = Tables(legal: (string, string, V) -> bool, defaults: Layer<V>, profile: Layer<V>)

  datatype OptionError = UnknownGroup(group: string) | UnknownOption(group: string, name: string) | Illegal(group: string, name: string)

  // ----- one layer ---------------------------------------------------------------------------

  predicate ValidGroup<V>(t: Tables<V>, resolved: Layer<V>, group: string, values: Group<V>) {
    group in resolved && forall name :: name in values ==> name in resolved[group] && t.legal(group, name, values[name])
  }

  predicate ValidLayer<V>(t: Tables<V>, resolved: Layer<V>, layer: Layer<V>) {
    forall group :: group in layer ==> ValidGroup(t, resolved, group, layer[group])
  }

  function Overlaid<V>(resolved: Layer<V>, layer: Layer<V>): Layer<V> {
    map group | group in resolved ::
      if group in layer then resolved[group] + layer[group] else resolved[group]
  }

  function Applied<V>(t: Tables<V>, resolved: Layer<V>, layer: Layer<V>): Option<Layer<V>> {
    if ValidLayer(t, resolved, layer) then Some(Overlaid(resolved, layer)) else None
  }

  /** The options of a group that are not still to be done. */
  function Done<V>(values: Group<V>, todo: set<string>): Group<V> {
    map name | name in values && name !in todo :: values[name]
  }

  lemma OneMoreOption<V>(base: Group<V>, values: Group<V>, todo: set<string>, name: string)
    requires name in values && name in todo
    ensures (base + Done(values, todo))[name := values[name]] == base + Done(values, todo - {name})
  {
  }

  lemma AllDone<V>(values: Group<V>)
    ensures Done(values, {}) == values
  {
  }

  /** What the error says of the layer is so. */
  predicate Blames<V>(t: Tables<V>, resolved: Layer<V>, layer: Layer<V>, error: OptionError) {
    && error.group in layer
    && match error
       case UnknownGroup(group) => group !in resolved
       case UnknownOption(group, name) => group in resolved && name in layer[group] && name !in resolved[group]
       case Illegal(group, name) =>
         && group in resolved && name in layer[group] && name in resolved[group]
         && !t.legal(group, name, layer[group][name])
  }

  /** The same options, whatever their values. */
  predicate SameShape<V>(a: Layer<V>, b: Layer<V>) {
    a.Keys == b.Keys && forall group :: group in a ==> a[group].Keys == b[group].Keys
  }

  lemma ShapeKept<V>(t: Tables<V>, resolved: Layer<V>, layer: Layer<V>)
    requires ValidLayer(t, resolved, layer)
    ensures SameShape(resolved, Overlaid(resolved, layer))
  {
    forall group | group in resolved ensures Overlaid(resolved, layer)[group].Keys == resolved[group].Keys {
      assert group in layer ==> ValidGroup(t, resolved, group, layer[group]);
    }
  }

  /** Merge one group in place, refusing the first bad option the dict yields. */
  method ApplyGroup<V>(t: Tables<V>, resolved: Layer<V>, group: string, values: Group<V>)
    returns (r: Result<Layer<V>, OptionError>)
    ensures r.Ok? <==> ValidGroup(t, resolved, group, values)
    ensures r.Ok? ==> r.value == resolved[group := resolved[group] + values]
    ensures r.Err? ==> r.error.group == group && Blames(t, resolved, map[group := values], r.error)
  {
    if group !in resolved { return Err(UnknownGroup(group)); }
    var current := resolved[group];
    var todo := values.Keys;
    while todo != {}
      invariant todo <= values.Keys
      invariant forall name :: name in values && name !in todo ==> name in resolved[group] && t.legal(group, name, values[name])
      invariant current == resolved[group] + Done(values, todo)
      decreases |todo|
    {
      var name :| name in todo;
      if name !in resolved[group] { return Err(UnknownOption(group, name)); }
      if !t.legal(group, name, values[name]) { return Err(Illegal(group, name)); }
      OneMoreOption(resolved[group], values, todo, name);
      current := current[name := values[name]];
      todo := todo - {name};
    }
    AllDone(values);
    r := Ok(resolved[group := current]);
  }

  method Apply<V>(t: Tables<V>, resolved: Layer<V>, layer: Layer<V>) returns (r: Result<Layer<V>, OptionError>)
    ensures r.Ok? <==> Applied(t, resolved, layer).Some?
    ensures r.Ok? ==> r.value == Applied(t, resolved, layer).value
    ensures r.Err? ==> Blames(t, resolved, layer, r.error)
  {
    var current := resolved;
    var todo := layer.Keys;
    while todo != {}
      invariant todo <= layer.Keys && current.Keys == resolved.Keys
      invariant forall group :: group in layer && group !in todo ==> ValidGroup(t, resolved, group, layer[group])
      invariant forall group :: group in resolved ==>
        current[group] == if group in layer && group !in todo then resolved[group] + layer[group] else resolved[group]
      decreases |todo|
    {
      var group :| group in todo;
      var next := ApplyGroup(t, current, group, layer[group]);
      assert group in resolved ==> current[group] == resolved[group];
      if next.Err? { return next; }
      current := next.value;
      todo := todo - {group};
    }
    r := Ok(current);
  }

  // ----- resolving ---------------------------------------------------------------------------

  function AppliedAll<V>(t: Tables<V>, resolved: Layer<V>, layers: seq<Layer<V>>): Option<Layer<V>> {
    if layers == [] then Some(resolved)
    else
      var next := Applied(t, resolved, layers[0]);
      if next.None? then None else AppliedAll(t, next.value, layers[1..])
  }

  /** Defaults, then the format's profile, then each inherited layer root first, then the
      request's own. */
  function Resolved<V>(t: Tables<V>, overrides: Layer<V>, inherited: seq<Layer<V>>): Option<Layer<V>> {
    AppliedAll(t, t.defaults, [t.profile] + inherited + [overrides])
  }

  method ResolveOptions<V>(t: Tables<V>, overrides: Layer<V>, inherited: seq<Layer<V>>)
    returns (r: Result<Layer<V>, OptionError>)
    ensures r.Ok? <==> Resolved(t, overrides, inherited).Some?
    ensures r.Ok? ==> r.value == Resolved(t, overrides, inherited).value
    ensures r.Err? ==> exists layer :: layer in [t.profile] + inherited + [overrides] && Blames(t, t.defaults, layer, r.error)
  {
    var layers := [t.profile] + inherited + [overrides];
    var resolved := t.defaults;
    for k := 0 to |layers|
      invariant AppliedAll(t, resolved, layers[k..]) == Resolved(t, overrides, inherited)
      invariant SameShape(t.defaults, resolved)
    {
      assert layers[k..][0] == layers[k] && layers[k..][1..] == layers[k + 1..];
      var next := Apply(t, resolved, layers[k]);
      if next.Err? {
        assert layers[k] in layers && Blames(t, t.defaults, layers[k], next.error);
        return next;
      }
      ShapeKept(t, resolved, layers[k]);
      resolved := next.value;
    }
    r := Ok(resolved);
  }

  // ----- merging -----------------------------------------------------------------------------

  function Merged2<V>(a: Layer<V>, b: Layer<V>): Layer<V> {
    map group | group in a.Keys + b.Keys ::
      if group !in b then a[group] else if group !in a then b[group] else a[group] + b[group]
  }

  function MergedLayers<V>(layers: seq<Layer<V>>): Layer<V> {
    if layers == [] then map[] else Merged2(MergedLayers(layers[..|layers| - 1]), layers[|layers| - 1])
  }

  /** setdefault and update, one group at a time. */
  method MergeLayer<V>(before: Layer<V>, layer: Layer<V>) returns (merged: Layer<V>)
    ensures merged == Merged2(before, layer)
  {
    merged := before;
    var todo := layer.Keys;
    NothingMerged(before, layer);
    while todo != {}
      invariant todo <= layer.Keys
      invariant merged == Merged2(before, layer - todo)
      decreases |todo|
    {
      var group :| group in todo;
      MergeStep(before, layer, todo, group);
      var values := if group in merged then merged[group] else map[];
      merged := merged[group := values + layer[group]];
      todo := todo - {group};
    }
    assert layer - todo == layer;
  }

  lemma NothingMerged<V>(before: Layer<V>, layer: Layer<V>)
    ensures Merged2(before, layer - layer.Keys) == before
  {
    assert layer - layer.Keys == map[];
  }

  lemma {:induction false} MergeStep<V>(before: Layer<V>, layer: Layer<V>, todo: set<string>, group: string)
    requires todo <= layer.Keys && group in todo
    ensures var merged, next := Merged2(before, layer - todo), Merged2(before, layer - (todo - {group}));
            next == merged[group := (if group in merged then merged[group] else map[]) + layer[group]]
  {
    assert map[] + layer[group] == layer[group];
    assert forall g :: g in layer - todo <==> g in layer && g !in todo;
    assert forall g :: g in layer - (todo - {group}) <==> g == group || g in layer - todo;
  }

  method MergeOptionLayers<V>(layers: seq<Layer<V>>) returns (merged: Layer<V>)
    ensures merged == MergedLayers(layers)
  {
    merged := map[];
    for k := 0 to |layers|
      invariant merged == MergedLayers(layers[..k])
    {
      assert layers[..k + 1][..k] == layers[..k];
      merged := MergeLayer(merged, layers[k]);
    }
    assert layers[..|layers|] == layers;
  }

  // ----- what layering means -------------------------------------------------------------------

  /** What the layer says about one option. */
  function Setting<V>(layer: Layer<V>, group: string, name: string): Option<V> {
    if group in layer && name in layer[group] then Some(layer[group][name]) else None
  }

  /** What the last layer that says anything about it says. */
  function LastSetting<V>(layers: seq<Layer<V>>, group: string, name: string): Option<V> {
    if layers == [] then None
    else
      var k := |layers| - 1;
      var last := Setting(layers[k], group, name);
      if last.Some? then last else LastSetting(layers[..k], group, name)
  }

  predicate AllValid<V>(t: Tables<V>, layers: seq<Layer<V>>) {
    forall i :: 0 <= i < |layers| ==> ValidLayer(t, t.defaults, layers[i])
  }

  lemma SameShapeValid<V>(t: Tables<V>, a: Layer<V>, b: Layer<V>, layer: Layer<V>)
    requires SameShape(a, b)
    ensures ValidLayer(t, a, layer) <==> ValidLayer(t, b, layer)
  {
    assert forall group :: group in layer ==>
      (ValidGroup(t, a, group, layer[group]) <==> ValidGroup(t, b, group, layer[group]));
  }

  lemma OverlaidSetting<V>(resolved: Layer<V>, layer: Layer<V>, group: string, name: string)
    requires group in resolved
    ensures Setting(Overlaid(resolved, layer), group, name) ==
            if Setting(layer, group, name).Some? then Setting(layer, group, name) else Setting(resolved, group, name)
  {
  }

  lemma {:induction false} LastSettingCons<V>(first: Layer<V>, rest: seq<Layer<V>>, group: string, name: string)
    ensures LastSetting([first] + rest, group, name) ==
            if LastSetting(rest, group, name).Some? then LastSetting(rest, group, name) else Setting(first, group, name)
    decreases |rest|
  {
    var all := [first] + rest;
    if rest == [] {
      assert all[..0] == [];
    } else {
      var k := |rest| - 1;
      assert all[..k + 1] == [first] + rest[..k] && all[k + 1] == rest[k];
      LastSettingCons(first, rest[..k], group, name);
    }
  }

  /** Applying layers succeeds exactly when each of them is valid, and then each option is
      what the last layer to set it said, or what it was. */
  lemma {:induction false} AppliedIs<V>(t: Tables<V>, resolved: Layer<V>, layers: seq<Layer<V>>)
    requires SameShape(t.defaults, resolved)
    ensures var r := AppliedAll(t, resolved, layers);
            && (r.Some? <==> AllValid(t, layers))
            && (r.Some? ==>
                  && SameShape(t.defaults, r.value)
                  && forall group, name :: group in resolved ==>
                       Setting(r.value, group, name) ==
                       if LastSetting(layers, group, name).Some? then LastSetting(layers, group, name)
                       else Setting(resolved, group, name))
    decreases |layers|
  {
    if layers != [] {
      var rest := layers[1..];
      assert layers == [layers[0]] + rest;
      SameShapeValid(t, t.defaults, resolved, layers[0]);
      assert AllValid(t, layers) <==> ValidLayer(t, t.defaults, layers[0]) && AllValid(t, rest);
      if ValidLayer(t, resolved, layers[0]) {
        var next := Overlaid(resolved, layers[0]);
        ShapeKept(t, resolved, layers[0]);
        AppliedIs(t, next, rest);
        forall group, name | group in resolved
          ensures LastSetting(layers, group, name) ==
                  if LastSetting(rest, group, name).Some? then LastSetting(rest, group, name) else Setting(layers[0], group, name)
          ensures Setting(next, group, name) ==
                  if Setting(layers[0], group, name).Some? then Setting(layers[0], group, name) else Setting(resolved, group, name)
        {
          LastSettingCons(layers[0], rest, group, name);
          OverlaidSetting(resolved, layers[0], group, name);
        }
      }
    }
  }

  lemma {:induction false} MergedSetting<V>(layers: seq<Layer<V>>, group: string, name: string)
    ensures Setting(MergedLayers(layers), group, name) == LastSetting(layers, group, name)
  {
    if layers != [] {
      MergedSetting(layers[..|layers| - 1], group, name);
    }
  }

  lemma {:induction false} MergedValid<V>(t: Tables<V>, layers: seq<Layer<V>>)
    requires AllValid(t, layers)
    ensures ValidLayer(t, t.defaults, MergedLayers(layers))
  {
    if layers != [] {
      var k := |layers| - 1;
      MergedValid(t, layers[..k]);
      var before := MergedLayers(layers[..k]);
      forall group | group in MergedLayers(layers)
        ensures ValidGroup(t, t.defaults, group, MergedLayers(layers)[group])
      {
        assert group in before ==> ValidGroup(t, t.defaults, group, before[group]);
        assert group in layers[k] ==> ValidGroup(t, t.defaults, group, layers[k][group]);
      }
    }
  }

  lemma SameSettings<V>(a: Layer<V>, b: Layer<V>)
    requires SameShape(a, b)
    requires forall group, name :: group in a ==> Setting(a, group, name) == Setting(b, group, name)
    ensures a == b
  {
    forall group | group in a ensures a[group] == b[group] {
      forall name | name in a[group] ensures a[group][name] == b[group][name] {
        assert Setting(a, group, name) == Setting(b, group, name);
      }
    }
  }

  /** What resolution gives for each option: what the last layer to set it said, option by
      option and not group by group; failing that the profile's word, failing that the
      task's default. */
  lemma LaterLayersWin<V>(t: Tables<V>, overrides: Layer<V>, inherited: seq<Layer<V>>, group: string, name: string)
    requires Resolved(t, overrides, inherited).Some? && group in t.defaults
    ensures var r, layers := Resolved(t, overrides, inherited).value, [t.profile] + inherited + [overrides];
            && (LastSetting(layers, group, name).Some? ==> Setting(r, group, name) == LastSetting(layers, group, name))
            && (LastSetting(layers, group, name).None? ==> Setting(r, group, name) == Setting(t.defaults, group, name))
  {
    AppliedIs(t, t.defaults, [t.profile] + inherited + [overrides]);
  }

  lemma LastSettingAppend<V>(a: seq<Layer<V>>, b: Layer<V>, group: string, name: string)
    ensures LastSetting(a + [b], group, name) ==
            if Setting(b, group, name).Some? then Setting(b, group, name) else LastSetting(a, group, name)
  {
    assert (a + [b])[..|a|] == a;
  }

  /** Merging layers and then resolving gives what resolving them as inherited layers gives,
      exactly when every layer is valid or the merged set is not: merging alone can hide an
      illegal value under a later legal one. */
  lemma {:induction false} MergeThenResolveExactly<V>(t: Tables<V>, layers: seq<Layer<V>>)
    requires ValidLayer(t, t.defaults, t.profile)
    ensures Resolved(t, MergedLayers(layers), []) == Resolved(t, map[], layers) <==>
            AllValid(t, layers) || !ValidLayer(t, t.defaults, MergedLayers(layers))
  {
    var merged := MergedLayers(layers);
    var one, many := [t.profile] + [] + [merged], [t.profile] + layers + [map[]];
    assert AllValid(t, one) <==> ValidLayer(t, t.defaults, merged) by {
      assert one[0] == t.profile && one[1] == merged;
    }
    assert AllValid(t, many) <==> AllValid(t, layers) by {
      assert many[0] == t.profile && many[|layers| + 1] == map[];
      assert forall i :: 0 <= i < |layers| ==> many[i + 1] == layers[i];
    }
    AppliedIs(t, t.defaults, one);
    AppliedIs(t, t.defaults, many);
    if AllValid(t, layers) {
      MergedValid(t, layers);
      SameAnswers(t, layers);
    }
  }

  lemma {:induction false} SameAnswers<V>(t: Tables<V>, layers: seq<Layer<V>>)
    requires ValidLayer(t, t.defaults, t.profile) && AllValid(t, layers)
    requires Resolved(t, MergedLayers(layers), []).Some? && Resolved(t, map[], layers).Some?
    ensures Resolved(t, MergedLayers(layers), []) == Resolved(t, map[], layers)
  {
    var merged := MergedLayers(layers);
    var one, many := [t.profile] + [] + [merged], [t.profile] + layers + [map[]];
    AppliedIs(t, t.defaults, one);
    AppliedIs(t, t.defaults, many);
    forall group, name ensures LastSetting(one, group, name) == LastSetting(many, group, name) {
      MergedSetting(layers, group, name);
      LastSettingAppend([t.profile] + layers, map[], group, name);
      LastSettingCons(t.profile, layers, group, name);
      LastSettingCons(t.profile, [merged], group, name);
      assert one == [t.profile] + [merged];
      assert [merged][..0] == [];
    }
    SameSettings(Resolved(t, merged, []).value, Resolved(t, map[], layers).value);
  }

  lemma ResolvedLegalAgain<V>(t: Tables<V>, overrides: Layer<V>, inherited: seq<Layer<V>>)
    requires Resolved(t, overrides, inherited).Some?
    ensures var r := Resolved(t, overrides, inherited).value;
            Resolved(t, r, []) == Some(r) <==> ValidLayer(t, t.defaults, r)
  {
    var layers := [t.profile] + inherited + [overrides];
    AppliedIs(t, t.defaults, layers);
    var r := Resolved(t, overrides, inherited).value;
    var again := [t.profile] + [] + [r];
    AppliedIs(t, t.defaults, again);
    assert layers[0] == t.profile && again[0] == t.profile && again[1] == r;
    assert AllValid(t, again) <==> ValidLayer(t, t.defaults, r);
    if ValidLayer(t, t.defaults, r) {
      var s := Resolved(t, r, []).value;
      forall group, name | group in r ensures Setting(s, group, name) == Setting(r, group, name) {
        LastSettingAppend([t.profile] + [], r, group, name);
        ShapeSettings(t.defaults, r, group, name);
        LastSettingCons(t.profile, [], group, name);
        assert [t.profile] + [] == [t.profile];
        ProfileShape(t, group, name);
      }
      SameSettings(s, r);
    }
  }

  /** Every default that none of the layers replaces passes its check. */
  predicate DefaultsLeftLegal<V>(t: Tables<V>, layers: seq<Layer<V>>) {
    forall group, name :: group in t.defaults && name in t.defaults[group] ==>
      DefaultLegal(t, layers, group, name)
  }

  predicate DefaultLegal<V>(t: Tables<V>, layers: seq<Layer<V>>, group: string, name: string)
    requires group in t.defaults && name in t.defaults[group]
  {
    LastSetting(layers, group, name).Some? || t.legal(group, name, t.defaults[group][name])
  }

  lemma {:induction false} LastSettingLegal<V>(t: Tables<V>, layers: seq<Layer<V>>, group: string, name: string)
    requires AllValid(t, layers)
    ensures var v := LastSetting(layers, group, name);
            v.Some? ==> group in t.defaults && name in t.defaults[group] && t.legal(group, name, v.value)
  {
    if layers != [] {
      var k := |layers| - 1;
      assert group in layers[k] ==> ValidGroup(t, t.defaults, group, layers[k][group]);
      LastSettingLegal(t, layers[..k], group, name);
    }
  }

  /** One option of what was resolved passes its check exactly when it does not come from an
      illegal default. */
  lemma ResolvedOptionLegal<V>(t: Tables<V>, r: Layer<V>, layers: seq<Layer<V>>, group: string, name: string)
    requires AllValid(t, layers) && AppliedAll(t, t.defaults, layers) == Some(r)
    requires SameShape(t.defaults, r) && group in r && name in r[group]
    ensures t.legal(group, name, r[group][name]) <==> DefaultLegal(t, layers, group, name)
  {
    AppliedIs(t, t.defaults, layers);
    LastSettingLegal(t, layers, group, name);
    assert Setting(r, group, name) == Some(r[group][name]);
  }

  lemma ResolvedLegal<V>(t: Tables<V>, r: Layer<V>, layers: seq<Layer<V>>)
    requires AllValid(t, layers) && AppliedAll(t, t.defaults, layers) == Some(r)
    ensures ValidLayer(t, t.defaults, r) <==> DefaultsLeftLegal(t, layers)
  {
    AppliedIs(t, t.defaults, layers);
    forall group, name | group in r && name in r[group]
      ensures t.legal(group, name, r[group][name]) <==> DefaultLegal(t, layers, group, name)
    {
      ResolvedOptionLegal(t, r, layers, group, name);
    }
    if DefaultsLeftLegal(t, layers) {
      assert forall group :: group in r ==> ValidGroup(t, t.defaults, group, r[group]);
    }
    if ValidLayer(t, t.defaults, r) {
      forall group, name | group in t.defaults && name in t.defaults[group]
        ensures DefaultLegal(t, layers, group, name)
      {
        assert ValidGroup(t, t.defaults, group, r[group]);
      }
    }
  }

  /** Resolving what was resolved is the identity exactly when every default that no layer
      replaced passes its check. */
  lemma ResolvedAgainExactly<V>(t: Tables<V>, overrides: Layer<V>, inherited: seq<Layer<V>>)
    requires Resolved(t, overrides, inherited).Some?
    ensures var r := Resolved(t, overrides, inherited).value;
            Resolved(t, r, []) == Some(r) <==> DefaultsLeftLegal(t, [t.profile] + inherited + [overrides])
  {
    var layers := [t.profile] + inherited + [overrides];
    AppliedIs(t, t.defaults, layers);
    ResolvedLegalAgain(t, overrides, inherited);
    ResolvedLegal(t, Resolved(t, overrides, inherited).value, layers);
  }

  ghost predicate ResolvesAgain<V>(t: Tables<V>, overrides: Layer<V>, inherited: seq<Layer<V>>) {
    var r := Resolved(t, overrides, inherited);
    r.Some? ==> Resolved(t, r.value, []) == r
  }

  /** Of the tables alone: whatever is resolved can be resolved again to itself exactly when
      the defaults the profile leaves in place are legal. */
  lemma ResolvingTwiceExactly<V(!new)>(t: Tables<V>)
    requires ValidLayer(t, t.defaults, t.profile)
    ensures (forall overrides, inherited :: ResolvesAgain(t, overrides, inherited)) <==> DefaultsLeftLegal(t, [t.profile])
  {
    if DefaultsLeftLegal(t, [t.profile]) {
      forall overrides, inherited ensures ResolvesAgain(t, overrides, inherited) {
        if Resolved(t, overrides, inherited).Some? {
          MoreLayersLeaveLess(t, overrides, inherited);
          ResolvedAgainExactly(t, overrides, inherited);
        }
      }
    } else {
      NoLayersLeaveAll(t);
      assert !ResolvesAgain(t, map[], []);
    }
  }

  lemma MoreLayersLeaveLess<V>(t: Tables<V>, overrides: Layer<V>, inherited: seq<Layer<V>>)
    requires DefaultsLeftLegal(t, [t.profile])
    ensures DefaultsLeftLegal(t, [t.profile] + inherited + [overrides])
  {
    var layers := [t.profile] + inherited + [overrides];
    forall group, name | group in t.defaults && name in t.defaults[group] ensures DefaultLegal(t, layers, group, name) {
      assert DefaultLegal(t, [t.profile], group, name);
      assert layers == [t.profile] + (inherited + [overrides]);
      LastSettingCons(t.profile, inherited + [overrides], group, name);
      LastSettingCons(t.profile, [], group, name);
      assert [t.profile] + [] == [t.profile];
    }
  }

  lemma NoLayersLeaveAll<V>(t: Tables<V>)
    requires ValidLayer(t, t.defaults, t.profile) && !DefaultsLeftLegal(t, [t.profile])
    ensures Resolved(t, map[], []).Some? && Resolved(t, Resolved(t, map[], []).value, []) != Resolved(t, map[], [])
  {
    var layers := [t.profile] + [] + [map[]];
    assert layers == [t.profile] + [map[]];
    assert layers[0] == t.profile && layers[1] == map[];
    AppliedIs(t, t.defaults, layers);
    forall group, name ensures LastSetting(layers, group, name) == LastSetting([t.profile], group, name) {
      LastSettingAppend([t.profile], map[], group, name);
    }
    assert !DefaultsLeftLegal(t, layers) by {
      var group, name :| group in t.defaults && name in t.defaults[group] && !DefaultLegal(t, [t.profile], group, name);
      assert !DefaultLegal(t, layers, group, name);
    }
    ResolvedAgainExactly(t, map[], []);
  }

  // ----- where the two promises fail -----------------------------------------------------------

  /** One option, which must be positive. */
  function WordTables(words: int): Tables<int> {
    Tables((group: string, name: string, value: int) => value > 0, Words(words), map[])
  }

  function Words(words: int): Layer<int> {
    map["structure" := map["max_words" := words]]
  }

  lemma WordsMerge()
    ensures MergedLayers([Words(0), Words(60)]) == Words(60)
  {
    var layers := [Words(0), Words(60)];
    assert layers[..1] == [Words(0)] && [Words(0)][..0] == [];
    assert Words(0)["structure"] + Words(60)["structure"] == Words(60)["structure"];
    assert MergedLayers([Words(0)]) == Words(0);
  }

  lemma {:induction false} SixtyResolves()
    ensures Resolved(WordTables(120), Words(60), []) == Some(Words(60))
  {
    var t := WordTables(120);
    assert ValidGroup(t, t.defaults, "structure", Words(60)["structure"]);
    AppliedCons(t, t.defaults, map[], [Words(60)]);
    AppliedOne(t, t.defaults, Words(60));
    assert [t.profile] + [] + [Words(60)] == [map[]] + [Words(60)];
    assert Words(120)["structure"] + Words(60)["structure"] == Words(60)["structure"];
    assert Overlaid(t.defaults, map[]) == t.defaults && Overlaid(t.defaults, Words(60)) == Words(60);
  }

  lemma ZeroIsRefused()
    ensures Resolved(WordTables(120), map[], [Words(0), Words(60)]) == None
  {
    var t := WordTables(120);
    var many := [t.profile] + [Words(0), Words(60)] + [map[]];
    assert many == [map[]] + ([Words(0)] + [Words(60), map[]]);
    assert Overlaid(t.defaults, map[]) == t.defaults;
    AppliedCons(t, t.defaults, map[], [Words(0)] + [Words(60), map[]]);
    AppliedCons(t, t.defaults, Words(0), [Words(60), map[]]);
    assert !ValidGroup(t, t.defaults, "structure", Words(0)["structure"]) by {
      assert "max_words" in Words(0)["structure"] && !t.legal("structure", "max_words", 0);
    }
  }

  /** A collection that says 0 under one that says 60: merged first, the 0 is never seen;
      inherited, it is refused. */
  lemma MergingHidesIllegal()
    ensures var t, layers := WordTables(120), [Words(0), Words(60)];
            && Resolved(t, MergedLayers(layers), []) == Some(Words(60))
            && Resolved(t, map[], layers) == None
  {
    WordsMerge();
    SixtyResolves();
    ZeroIsRefused();
  }

  /** An illegal default resolves once and is refused the second time. */
  lemma IllegalDefaultRefused()
    ensures var t := WordTables(0);
            Resolved(t, map[], []) == Some(Words(0)) && Resolved(t, Words(0), []) == None
  {
    var t := WordTables(0);
    assert [t.profile] + [] + [map[]] == [map[]] + [map[]];
    assert [t.profile] + [] + [Words(0)] == [map[]] + [Words(0)];
    assert Overlaid(t.defaults, map[]) == t.defaults;
    AppliedCons(t, t.defaults, map[], [map[]]);
    AppliedOne(t, t.defaults, map[]);
    AppliedCons(t, t.defaults, map[], [Words(0)]);
    AppliedOne(t, t.defaults, Words(0));
    assert !ValidGroup(t, t.defaults, "structure", Words(0)["structure"]) by {
      assert "max_words" in Words(0)["structure"] && !t.legal("structure", "max_words", 0);
    }
  }

  lemma ShapeSettings<V>(a: Layer<V>, b: Layer<V>, group: string, name: string)
    requires SameShape(a, b)
    ensures Setting(a, group, name).Some? <==> Setting(b, group, name).Some?
  {
  }

  lemma ProfileShape<V>(t: Tables<V>, group: string, name: string)
    requires ValidLayer(t, t.defaults, t.profile)
    ensures Setting(t.profile, group, name).Some? ==> Setting(t.defaults, group, name).Some?
  {
    assert group in t.profile ==> ValidGroup(t, t.defaults, group, t.profile[group]);
  }

  /** A named entry point's options are one more layer, under the request's own. */
  lemma UsetypeIsLayer<V>(t: Tables<V>, usetype: Layer<V>, overrides: Layer<V>)
    ensures Resolved(t, overrides, [usetype]) ==
            var base := Resolved(t, usetype, []);
            if base.None? then None else Applied(t, base.value, overrides)
  {
    assert [t.profile] + [] + [usetype] == [t.profile] + [usetype];
    assert [t.profile] + [usetype] + [overrides] == [t.profile] + ([usetype] + [overrides]);
    AppliedCons(t, t.defaults, t.profile, [usetype]);
    AppliedCons(t, t.defaults, t.profile, [usetype] + [overrides]);
    var first := Applied(t, t.defaults, t.profile);
    if first.Some? {
      AppliedOne(t, first.value, usetype);
      AppliedCons(t, first.value, usetype, [overrides]);
      var second := Applied(t, first.value, usetype);
      if second.Some? { AppliedOne(t, second.value, overrides); }
    }
  }

  lemma AppliedCons<V>(t: Tables<V>, resolved: Layer<V>, layer: Layer<V>, rest: seq<Layer<V>>)
    ensures AppliedAll(t, resolved, [layer] + rest) ==
            var next := Applied(t, resolved, layer);
            if next.None? then None else AppliedAll(t, next.value, rest)
  {
    assert ([layer] + rest)[1..] == rest;
  }

  lemma AppliedOne<V>(t: Tables<V>, resolved: Layer<V>, layer: Layer<V>)
    ensures AppliedAll(t, resolved, [layer]) == Applied(t, resolved, layer)
  {
    assert [layer][1..] == [];
  }
}
