/** Feature selection from image labels and the merge of feature settings into a sandbox config. */
module Features {
  import opened Sorting
  import opened Strings
  import opened Wrappers

  datatype Protocol = Tcp | Udp

  datatype PortMapping = PortMapping(hostPort: nat, containerPort: nat, protocol: Protocol)

  datatype VolumeMount =
    | Bind(hostPath: string, containerPath: string, readOnly: bool)
    | Named(name: string, containerPath: string, readOnly: bool)

  datatype FeaturePort = FeaturePort(host: nat, container: nat, protocol: string)

  datatype FeatureVolume = FeatureVolume(
    volumeType: string, containerPath: string, hostPath: Option<string>, readOnly: bool)

  datatype FeatureDefinition = FeatureDefinition(
    ports: seq<FeaturePort>, env: map<string, string>, volumes: seq<FeatureVolume>, enabledByDefault: bool)

  type Available = map<string, FeatureDefinition>

  datatype FeatureSelection = FeatureSelection(enabled: seq<string>, disabled: seq<string>, enableAll: bool)

  datatype FeatureProfile = FeatureProfile(
    available: Available, enabled: seq<string>, defaultCommand: Option<seq<string>>)

  // ---------- selection ----------

  /** Not disabled, and named explicitly or, when nothing is named, enabled by default. */
  predicate Selected(available: Available, selection: FeatureSelection, name: string) {
    && name in available && name !in selection.disabled
    && (name in selection.enabled || (selection.enabled == [] && available[name].enabledByDefault))
  }

  /** `Vec::dedup`: drops an element equal to its predecessor. */
  function Dedup<T(==)>(s: seq<T>): seq<T> {
    if |s| < 2 then s
    else if s[0] == s[1] then Dedup(s[1..])
    else [s[0]] + Dedup(s[1..])
  }

  lemma {:induction false} DedupDistinct<T>(s: seq<T>)
    requires NoDuplicates(s)
    ensures Dedup(s) == s
  {
    if |s| >= 2 {
      DedupDistinct(s[1..]);
      assert s == [s[0]] + s[1..];
    }
  }

  /** The answer is the sorted list of the selected names, whatever the enumeration order. */
  method DetermineEnabledFeatures(available: Available, selection: FeatureSelection, order: seq<string>)
    returns (enabled: seq<string>)
    requires Enumerates(order, available.Keys)
    ensures SortedBy(enabled, StrLe) && NoDuplicates(enabled)
    ensures Ascending(enabled)
    ensures forall name :: name in enabled <==> Selected(available, selection, name)
    ensures forall name :: name in enabled <==>
              && name in available && name !in selection.disabled
              && if selection.enabled == [] then available[name].enabledByDefault else name in selection.enabled
  {
    enabled := [];
    var hasExplicitSelection := selection.enabled != [];
    for i := 0 to |order|
      invariant NoDuplicates(enabled)
      invariant forall name :: name in enabled <==> name in order[..i] && Selected(available, selection, name)
    {
      var name := order[i];
      assert name in order && name !in order[..i];
      var feature := available[name];
      if name in selection.disabled { continue; }
      if name in selection.enabled {
        enabled := enabled + [name];
        continue;
      }
      if hasExplicitSelection { continue; }
      if selection.enableAll && feature.enabledByDefault {
        enabled := enabled + [name];
        continue;
      }
      if !selection.enableAll && feature.enabledByDefault {
        enabled := enabled + [name];
      }
    }
    SortStrings(enabled);
    DedupDistinct(Sort(enabled, StrLe));
    enabled := Dedup(Sort(enabled, StrLe));
    SortedIsAscending(enabled);
  }

  /** There is one such answer; in particular `enable_all` has no influence on it. */
  lemma SelectionIsUnique(available: Available, selection: FeatureSelection, enableAll: bool, a: seq<string>, b: seq<string>)
    requires SortedBy(a, StrLe) && NoDuplicates(a) && SortedBy(b, StrLe) && NoDuplicates(b)
    requires forall name :: name in a <==> Selected(available, selection, name)
    requires forall name :: name in b <==> Selected(available, selection.(enableAll := enableAll), name)
    ensures a == b
  {
    StrLeOrder();
    forall name ensures name in a <==> name in b {
      assert Selected(available, selection, name) <==> Selected(available, selection.(enableAll := enableAll), name);
    }
    SortedUnique(a, b, StrLe);
  }

  method BuildFeatureProfile(available: Available, defaultCommand: Option<seq<string>>, selection: FeatureSelection, order: seq<string>)
    returns (profile: FeatureProfile)
    requires Enumerates(order, available.Keys)
    ensures profile.available == available && profile.defaultCommand == defaultCommand
    ensures SortedBy(profile.enabled, StrLe) && NoDuplicates(profile.enabled)
    ensures Ascending(profile.enabled)
    ensures forall name :: name in profile.enabled <==> Selected(available, selection, name)
  {
    var enabled := DetermineEnabledFeatures(available, selection, order);
    profile := FeatureProfile(available, enabled, defaultCommand);
  }

  // ---------- what the enabled features ask for ----------

  /** ASCII lower case; no other character folds to a letter of "udp". */
  function Lower(s: string): string {
    seq(|s|, i requires 0 <= i < |s| => if 'A' <= s[i] <= 'Z' then s[i] - 'A' + 'a' else s[i])
  }

  function PortOf(p: FeaturePort): PortMapping {
    PortMapping(p.host, p.container, if Lower(p.protocol) == "udp" then Udp else Tcp)
  }

  function PortsOf(ports: seq<FeaturePort>): seq<PortMapping> {
    seq(|ports|, i requires 0 <= i < |ports| => PortOf(ports[i]))
  }

  function VolumeOf(v: FeatureVolume, feature: string, sandboxId: string): Option<VolumeMount> {
    if v.volumeType == "dynamic_bind" then
      Some(Bind(
        if v.hostPath.Some? then ReplaceAll(v.hostPath.value, "{sandbox_id}", sandboxId)
        else "/var/lib/dsb/feature-data/" + sandboxId + "/" + feature, v.containerPath, v.readOnly))
    else if v.volumeType == "bind" then
      Some(Bind(if v.hostPath.Some? then v.hostPath.value else "/tmp/dsb/" + sandboxId + "/" + feature,
                v.containerPath, v.readOnly))
    else if v.volumeType == "named" then
      Some(Named(if v.hostPath.Some? then v.hostPath.value else "dsb-" + feature + "-" + sandboxId,
                 v.containerPath, v.readOnly))
    else None
  }

  function VolumesOf(vs: seq<FeatureVolume>, feature: string, sandboxId: string): seq<VolumeMount> {
    if vs == [] then []
    else
      var last := VolumeOf(vs[|vs| - 1], feature, sandboxId);
      VolumesOf(vs[..|vs| - 1], feature, sandboxId) + (if last.Some? then [last.value] else [])
  }

  // The contributions of the enabled features, in the order of their names.

  function AllPorts(available: Available, names: seq<string>): seq<PortMapping> {
    if names == [] then []
    else
      var last := names[|names| - 1];
      AllPorts(available, names[..|names| - 1]) + (if last in available then PortsOf(available[last].ports) else [])
  }

  function AllVolumes(available: Available, names: seq<string>, sandboxId: string): seq<VolumeMount> {
    if names == [] then []
    else
      var last := names[|names| - 1];
      AllVolumes(available, names[..|names| - 1], sandboxId)
      + (if last in available then VolumesOf(available[last].volumes, last, sandboxId) else [])
  }

  function AllEnv(available: Available, names: seq<string>): map<string, string> {
    if names == [] then map[]
    else
      var last := names[|names| - 1];
      AllEnv(available, names[..|names| - 1]) + (if last in available then available[last].env else map[])
  }

  function CommandOf(profile: FeatureProfile): Option<seq<string>> {
    if profile.enabled == [] then None else profile.defaultCommand
  }

  // ---------- what they contribute, entry by entry ----------

  /** The mapping that a feature's port definition asks for. */
  predicate PortFrom(m: PortMapping, d: FeaturePort) {
    && m.hostPort == d.host && m.containerPort == d.container
    && (m.protocol == Udp <==>
          && |d.protocol| == 3 && d.protocol[0] in "uU" && d.protocol[1] in "dD" && d.protocol[2] in "pP")
  }

  lemma PortOfIsPortFrom(d: FeaturePort)
    ensures PortFrom(PortOf(d), d)
  {
    var low := Lower(d.protocol);
    if |d.protocol| == 3 {
      assert low[0] == 'u' <==> d.protocol[0] in "uU";
      assert low[1] == 'd' <==> d.protocol[1] in "dD";
      assert low[2] == 'p' <==> d.protocol[2] in "pP";
      assert low == [low[0], low[1], low[2]];
    }
  }

  /** The ports of one feature, in its own order; a feature that the image does not have asks for none. */
  lemma PortsOfOne(available: Available, name: string)
    ensures var ports := AllPorts(available, [name]);
            if name in available then
              && |ports| == |available[name].ports|
              && forall i | 0 <= i < |ports| :: PortFrom(ports[i], available[name].ports[i])
            else ports == []
  {
    assert [name][..0] == [];
    if name in available {
      var defs := available[name].ports;
      assert AllPorts(available, [name]) == PortsOf(defs);
      forall i | 0 <= i < |defs| ensures PortFrom(PortsOf(defs)[i], defs[i]) { PortOfIsPortFrom(defs[i]); }
    }
  }

  lemma AppendLast<T>(a: seq<T>, b: seq<T>)
    requires b != []
    ensures a + b != [] && (a + b)[..|a + b| - 1] == a + b[..|b| - 1] && (a + b)[|a + b| - 1] == b[|b| - 1]
  {}

  /** Features contribute ports one after the other, in the order of their names. */
  lemma {:induction false} PortsInOrder(available: Available, a: seq<string>, b: seq<string>)
    ensures AllPorts(available, a + b) == AllPorts(available, a) + AllPorts(available, b)
    decreases |b|
  {
    if b == [] {
      assert a + b == a;
    } else {
      AppendLast(a, b);
      var init, last := b[..|b| - 1], b[|b| - 1];
      PortsInOrder(available, a, init);
      ConcatAssociates(AllPorts(available, a), AllPorts(available, init),
                       if last in available then PortsOf(available[last].ports) else []);
    }
  }

  /** The volumes of one feature; a feature that the image does not have has none. */
  lemma VolumesOfOne(available: Available, name: string, sandboxId: string)
    ensures AllVolumes(available, [name], sandboxId)
         == if name in available then VolumesOf(available[name].volumes, name, sandboxId) else []
  {
    assert [name][..0] == [];
  }

  /** Features contribute volumes one after the other as well. */
  lemma {:induction false} FeatureVolumesInOrder(available: Available, a: seq<string>, b: seq<string>, sandboxId: string)
    ensures AllVolumes(available, a + b, sandboxId) == AllVolumes(available, a, sandboxId) + AllVolumes(available, b, sandboxId)
    decreases |b|
  {
    if b == [] {
      assert a + b == a;
    } else {
      AppendLast(a, b);
      var init, last := b[..|b| - 1], b[|b| - 1];
      FeatureVolumesInOrder(available, a, init, sandboxId);
      ConcatAssociates(AllVolumes(available, a, sandboxId), AllVolumes(available, init, sandboxId),
                       if last in available then VolumesOf(available[last].volumes, last, sandboxId) else []);
    }
  }

  /** A container port is contributed exactly if some enabled feature has it. */
  lemma {:induction false} ContainerPortsIff(available: Available, names: seq<string>, port: nat)
    ensures port in ContainerPorts(AllPorts(available, names)) <==>
            exists name, d :: name in names && name in available && d in available[name].ports && d.container == port
  {
    if names != [] {
      var init, last := names[..|names| - 1], names[|names| - 1];
      assert names == init + [last];
      ContainerPortsIff(available, init, port);
      var ports, more := AllPorts(available, init), AllPorts(available, [last]);
      PortsInOrder(available, init, [last]);
      assert ContainerPorts(ports + more) == ContainerPorts(ports) + ContainerPorts(more);
      PortsOfOne(available, last);
      OneFeaturesContainers(available, last, port);
    }
  }

  lemma OneFeaturesContainers(available: Available, name: string, port: nat)
    ensures port in ContainerPorts(AllPorts(available, [name])) <==>
            name in available && exists d :: d in available[name].ports && d.container == port
  {
    var ports := AllPorts(available, [name]);
    PortsOfOne(available, name);
    if port in ContainerPorts(ports) {
      var i :| 0 <= i < |ports| && ContainerPorts(ports)[i] == port;
      assert available[name].ports[i] in available[name].ports;
    }
    if name in available && exists d :: d in available[name].ports && d.container == port {
      var i :| 0 <= i < |available[name].ports| && available[name].ports[i].container == port;
      assert ContainerPorts(ports)[i] == port;
    }
  }

  /** The volume of one definition: a bind or a named volume at its container path, or nothing for an unknown type. */
  lemma VolumeOfOne(v: FeatureVolume, name: string, sandboxId: string)
    ensures VolumesOf([v], name, sandboxId) ==
      if v.volumeType == "dynamic_bind" && v.hostPath.Some? then
        [Bind(ReplaceAll(v.hostPath.value, "{sandbox_id}", sandboxId), v.containerPath, v.readOnly)]
      else if v.volumeType == "dynamic_bind" then
        [Bind("/var/lib/dsb/feature-data/" + sandboxId + "/" + name, v.containerPath, v.readOnly)]
      else if v.volumeType == "bind" && v.hostPath.Some? then [Bind(v.hostPath.value, v.containerPath, v.readOnly)]
      else if v.volumeType == "bind" then [Bind("/tmp/dsb/" + sandboxId + "/" + name, v.containerPath, v.readOnly)]
      else if v.volumeType == "named" && v.hostPath.Some? then [Named(v.hostPath.value, v.containerPath, v.readOnly)]
      else if v.volumeType == "named" then [Named("dsb-" + name + "-" + sandboxId, v.containerPath, v.readOnly)]
      else []
  {
    assert [v][..0] == [];
    assert VolumesOf([], name, sandboxId) == [];
  }

  /** The volumes of a feature come one after the other, in its own order. */
  lemma {:induction false} VolumesInOrder(a: seq<FeatureVolume>, b: seq<FeatureVolume>, feature: string, sandboxId: string)
    ensures VolumesOf(a + b, feature, sandboxId) == VolumesOf(a, feature, sandboxId) + VolumesOf(b, feature, sandboxId)
    decreases |b|
  {
    if b == [] {
      assert a + b == a;
    } else {
      var init, last := b[..|b| - 1], b[|b| - 1];
      VolumesInOrder(a, init, feature, sandboxId);
      AppendLast(a, b);
    }
  }

  /** A path without the placeholder is used as it is; the first placeholder becomes the id, and so on behind it. */
  lemma TemplatedPath(a: string, b: string, sandboxId: string)
    ensures NoMatchBefore(a, "{sandbox_id}", |a|) ==> ReplaceAll(a, "{sandbox_id}", sandboxId) == a
    ensures NoMatchBefore(a + ("{sandbox_id}" + b), "{sandbox_id}", |a|) ==>
              ReplaceAll(a + ("{sandbox_id}" + b), "{sandbox_id}", sandboxId)
              == a + (sandboxId + ReplaceAll(b, "{sandbox_id}", sandboxId))
  {
    if NoMatchBefore(a, "{sandbox_id}", |a|) { ReplaceAllNoMatch(a, "{sandbox_id}", sandboxId); }
    if NoMatchBefore(a + ("{sandbox_id}" + b), "{sandbox_id}", |a|) { ReplaceAllMatch(a, b, "{sandbox_id}", sandboxId); }
  }

  // ---------- the loops ----------

  method GetPorts(profile: FeatureProfile) returns (ports: seq<PortMapping>)
    ensures ports == AllPorts(profile.available, profile.enabled)
  {
    ports := [];
    for i := 0 to |profile.enabled|
      invariant ports == AllPorts(profile.available, profile.enabled[..i])
    {
      var name := profile.enabled[i];
      assert profile.enabled[..i + 1][..i] == profile.enabled[..i];
      if name in profile.available {
        var defs := profile.available[name].ports;
        ghost var before := ports;
        for j := 0 to |defs|
          invariant ports == before + PortsOf(defs[..j])
        {
          assert defs[..j + 1] == defs[..j] + [defs[j]];
          ports := ports + [PortOf(defs[j])];
        }
        assert defs[..|defs|] == defs;
      }
    }
    assert profile.enabled[..|profile.enabled|] == profile.enabled;
  }

  method GetVolumes(profile: FeatureProfile, sandboxId: string) returns (volumes: seq<VolumeMount>)
    ensures volumes == AllVolumes(profile.available, profile.enabled, sandboxId)
  {
    volumes := [];
    for i := 0 to |profile.enabled|
      invariant volumes == AllVolumes(profile.available, profile.enabled[..i], sandboxId)
    {
      var name := profile.enabled[i];
      assert profile.enabled[..i + 1][..i] == profile.enabled[..i];
      if name in profile.available {
        var defs := profile.available[name].volumes;
        ghost var before := volumes;
        for j := 0 to |defs|
          invariant volumes == before + VolumesOf(defs[..j], name, sandboxId)
        {
          assert defs[..j + 1][..j] == defs[..j];
          var volume := VolumeOf(defs[j], name, sandboxId);
          if volume == None { continue; }
          volumes := volumes + [volume.value];
        }
        assert defs[..|defs|] == defs;
      }
    }
    assert profile.enabled[..|profile.enabled|] == profile.enabled;
  }

  method GetEnv(profile: FeatureProfile) returns (env: map<string, string>)
    ensures env == AllEnv(profile.available, profile.enabled)
  {
    env := map[];
    for i := 0 to |profile.enabled|
      invariant env == AllEnv(profile.available, profile.enabled[..i])
    {
      assert profile.enabled[..i + 1][..i] == profile.enabled[..i];
      if profile.enabled[i] in profile.available {
        env := env + profile.available[profile.enabled[i]].env;
      }
    }
    assert profile.enabled[..|profile.enabled|] == profile.enabled;
  }

  /** `i` is the last enabled feature that sets `key`. */
  ghost predicate LastSetter(available: Available, names: seq<string>, i: int, key: string) {
    && 0 <= i < |names| && names[i] in available && key in available[names[i]].env
    && forall j | i < j < |names| :: names[j] in available ==> key !in available[names[j]].env
  }

  /** A feature variable comes from the last enabled feature that sets it. */
  lemma {:induction false} EnvFromLastFeature(available: Available, names: seq<string>, key: string)
    ensures key in AllEnv(available, names) <==> exists i :: LastSetter(available, names, i, key)
    ensures forall i | LastSetter(available, names, i, key) ::
              AllEnv(available, names)[key] == available[names[i]].env[key]
  {
    if names != [] {
      var n := |names| - 1;
      var init := names[..n];
      EnvFromLastFeature(available, init, key);
      if names[n] in available && key in available[names[n]].env {
        assert LastSetter(available, names, n, key);
      } else {
        assert forall i :: LastSetter(available, names, i, key) <==> LastSetter(available, init, i, key);
      }
    }
  }

  // ---------- adding what is new ----------

  /** Appends, one after the other, the elements whose key is not there yet. */
  function AppendNew<T, K(==)>(base: seq<T>, xs: seq<T>, key: T -> K): seq<T>
    decreases |xs|
  {
    if xs == [] then base
    else
      var acc := AppendNew(base, xs[..|xs| - 1], key);
      if HasKey(acc, key(xs[|xs| - 1]), key) then acc else acc + [xs[|xs| - 1]]
  }

  predicate HasKey<T, K(==)>(s: seq<T>, k: K, key: T -> K) {
    exists i :: 0 <= i < |s| && key(s[i]) == k
  }

  /** The elements of `xs` whose key occurs neither in `base` nor earlier in `xs`. */
  function Firsts<T, K(==)>(base: seq<T>, xs: seq<T>, key: T -> K): seq<T>
    decreases |xs|
  {
    if xs == [] then []
    else
      var init, last := xs[..|xs| - 1], xs[|xs| - 1];
      Firsts(base, init, key) + (if HasKey(base, key(last), key) || HasKey(init, key(last), key) then [] else [last])
  }

  lemma HasKeyConcat<T, K>(a: seq<T>, b: seq<T>, k: K, key: T -> K)
    ensures HasKey(a + b, k, key) <==> HasKey(a, k, key) || HasKey(b, k, key)
  {
    if HasKey(a, k, key) {
      var i :| 0 <= i < |a| && key(a[i]) == k;
      assert key((a + b)[i]) == k;
    }
    if HasKey(b, k, key) {
      var i :| 0 <= i < |b| && key(b[i]) == k;
      assert key((a + b)[|a| + i]) == k;
    }
  }

  lemma {:induction false} AppendNewKeys<T, K>(base: seq<T>, xs: seq<T>, key: T -> K, k: K)
    ensures HasKey(AppendNew(base, xs, key), k, key) <==> HasKey(base, k, key) || HasKey(xs, k, key)
    decreases |xs|
  {
    if xs != [] {
      var init, last := xs[..|xs| - 1], xs[|xs| - 1];
      AppendNewKeys(base, init, key, k);
      assert xs == init + [last];
      HasKeyConcat(init, [last], k, key);
      HasKeyConcat(AppendNew(base, init, key), [last], k, key);
      if key(last) == k { assert key([last][0]) == k; }
    }
  }

  /** Existing elements stay in front; what follows are the first occurrences, in order. */
  lemma {:induction false} AppendNewIsFirsts<T, K>(base: seq<T>, xs: seq<T>, key: T -> K)
    ensures AppendNew(base, xs, key) == base + Firsts(base, xs, key)
    decreases |xs|
  {
    if xs != [] {
      var init, last := xs[..|xs| - 1], xs[|xs| - 1];
      AppendNewIsFirsts(base, init, key);
      AppendNewKeys(base, init, key, key(last));
    }
  }

  lemma {:induction false} AppendNothingNew<T, K>(acc: seq<T>, xs: seq<T>, key: T -> K)
    requires forall x | x in xs :: HasKey(acc, key(x), key)
    ensures AppendNew(acc, xs, key) == acc
    decreases |xs|
  {
    if xs != [] {
      assert xs[|xs| - 1] in xs;
      AppendNothingNew(acc, xs[..|xs| - 1], key);
    }
  }

  lemma AppendNewIdempotent<T, K>(base: seq<T>, xs: seq<T>, key: T -> K)
    ensures AppendNew(AppendNew(base, xs, key), xs, key) == AppendNew(base, xs, key)
  {
    var once := AppendNew(base, xs, key);
    forall x | x in xs ensures HasKey(once, key(x), key) {
      AppendNewKeys(base, xs, key, key(x));
    }
    AppendNothingNew(once, xs, key);
  }

  // ---------- the merge ----------

  /** The fields of a sandbox config that the merge reads or writes. */
  datatype ConfigValue = ConfigValue(
    environment: map<string, string>, portMappings: seq<PortMapping>, exposedPorts: seq<nat>,
    volumes: seq<VolumeMount>, command: Option<seq<string>>, vncResolution: Option<string>, features: seq<string>)

  const VNC := "VNC_RESOLUTION"

  function ContainerPorts(ports: seq<PortMapping>): seq<nat> {
    seq(|ports|, i requires 0 <= i < |ports| => ports[i].containerPort)
  }

  function SamePort(port: nat): nat { port }

  function MountPoint(v: VolumeMount): string { v.containerPath }

  function MergedEnv(config: ConfigValue, featureEnv: map<string, string>): map<string, string> {
    var env := featureEnv + config.environment;
    if config.vncResolution.Some? then env[VNC := config.vncResolution.value] else env
  }

  function Merged(config: ConfigValue, profile: FeatureProfile, sandboxId: string): ConfigValue {
    config.(
      exposedPorts := AppendNew(config.exposedPorts, ContainerPorts(AllPorts(profile.available, profile.enabled)), SamePort),
      volumes := AppendNew(config.volumes, AllVolumes(profile.available, profile.enabled, sandboxId), MountPoint),
      environment := MergedEnv(config, AllEnv(profile.available, profile.enabled)),
      command := if config.command == None then CommandOf(profile) else config.command,
      features := if profile.enabled != [] then profile.enabled else config.features)
  }

  class SandboxConfig {
    var environment: map<string, string>
    var portMappings: seq<PortMapping>
    var exposedPorts: seq<nat>
    var volumes: seq<VolumeMount>
    var command: Option<seq<string>>
    var vncResolution: Option<string>
    var features: seq<string>

    constructor (v: ConfigValue)
      ensures Value() == v
    {
      environment, portMappings, exposedPorts, volumes := v.environment, v.portMappings, v.exposedPorts, v.volumes;
      command, vncResolution, features := v.command, v.vncResolution, v.features;
    }

    function Value(): ConfigValue
      reads this
    {
      ConfigValue(environment, portMappings, exposedPorts, volumes, command, vncResolution, features)
    }
  }

  method ExposePorts(config: SandboxConfig, ports: seq<PortMapping>)
    modifies config`exposedPorts
    ensures config.exposedPorts == AppendNew(old(config.exposedPorts), ContainerPorts(ports), SamePort)
  {
    for i := 0 to |ports|
      invariant config.exposedPorts == AppendNew(old(config.exposedPorts), ContainerPorts(ports[..i]), SamePort)
    {
      var port := ports[i].containerPort;
      assert ContainerPorts(ports[..i + 1])[..i] == ContainerPorts(ports[..i]);
      HasPort(config.exposedPorts, port);
      if port !in config.exposedPorts {
        config.exposedPorts := config.exposedPorts + [port];
      }
    }
    assert ports[..|ports|] == ports;
  }

  method MountVolumes(config: SandboxConfig, volumes: seq<VolumeMount>)
    modifies config`volumes
    ensures config.volumes == AppendNew(old(config.volumes), volumes, MountPoint)
  {
    for i := 0 to |volumes|
      invariant config.volumes == AppendNew(old(config.volumes), volumes[..i], MountPoint)
    {
      assert volumes[..i + 1][..i] == volumes[..i];
      if !HasKey(config.volumes, volumes[i].containerPath, MountPoint) {
        config.volumes := config.volumes + [volumes[i]];
      }
    }
    assert volumes[..|volumes|] == volumes;
  }

  /** The entries of the feature environment arrive in any order. */
  method SetEnvironment(config: SandboxConfig, env: map<string, string>)
    modifies config`environment
    ensures config.environment == MergedEnv(old(config.Value()), env)
  {
    var todo := env.Keys;
    while todo != {}
      invariant todo <= env.Keys
      invariant config.environment == (env - todo) + old(config.environment)
      decreases todo
    {
      var key :| key in todo;
      todo := todo - {key};
      if key !in config.environment {
        config.environment := config.environment[key := env[key]];
      }
    }
    if config.vncResolution.Some? {
      config.environment := config.environment[VNC := config.vncResolution.value];
    }
  }

  /** `apply_feature_profile`. */
  method ApplyFeatureProfile(config: SandboxConfig, profile: FeatureProfile, sandboxId: string)
    modifies config
    ensures config.Value() == Merged(old(config.Value()), profile, sandboxId)
  {
    var ports := GetPorts(profile);
    ExposePorts(config, ports);
    var volumes := GetVolumes(profile, sandboxId);
    MountVolumes(config, volumes);
    var env := GetEnv(profile);
    SetEnvironment(config, env);
    if config.command == None {
      config.command := CommandOf(profile);
    }
    if profile.enabled != [] {
      config.features := profile.enabled;
    }
  }

  lemma HasPort(ports: seq<nat>, port: nat)
    ensures HasKey(ports, port, SamePort) <==> port in ports
  {
    if port in ports {
      var i :| 0 <= i < |ports| && ports[i] == port;
      assert SamePort(ports[i]) == port;
    }
  }

  // ---------- what the merge means ----------

  /** Applying a profile twice is applying it once. */
  lemma MergeIdempotent(config: ConfigValue, profile: FeatureProfile, sandboxId: string)
    ensures Merged(Merged(config, profile, sandboxId), profile, sandboxId) == Merged(config, profile, sandboxId)
  {
    AppendNewIdempotent(config.exposedPorts, ContainerPorts(AllPorts(profile.available, profile.enabled)), SamePort);
    AppendNewIdempotent(config.volumes, AllVolumes(profile.available, profile.enabled, sandboxId), MountPoint);
    var env := AllEnv(profile.available, profile.enabled);
    var once := MergedEnv(config, env);
    assert env + once == once;
  }

  /** An environment lookup: the configured resolution, then the user, then the last feature. */
  lemma EnvIsLayered(config: ConfigValue, profile: FeatureProfile, sandboxId: string, key: string)
    ensures var env := Merged(config, profile, sandboxId).environment;
            if key == "VNC_RESOLUTION" && config.vncResolution.Some? then key in env && env[key] == config.vncResolution.value
            else if key in config.environment then key in env && env[key] == config.environment[key]
            else
              && (key in env <==> exists i :: LastSetter(profile.available, profile.enabled, i, key))
              && forall i | LastSetter(profile.available, profile.enabled, i, key) ::
                   env[key] == profile.available[profile.enabled[i]].env[key]
  {
    EnvFromLastFeature(profile.available, profile.enabled, key);
  }

  /** Ports and volumes of the user stay in front; features add first occurrences of new ones only. */
  lemma ListsAreExtended(config: ConfigValue, profile: FeatureProfile, sandboxId: string)
    ensures var m := Merged(config, profile, sandboxId);
            && m.exposedPorts == config.exposedPorts
                 + Firsts(config.exposedPorts, ContainerPorts(AllPorts(profile.available, profile.enabled)), SamePort)
            && m.volumes == config.volumes
                 + Firsts(config.volumes, AllVolumes(profile.available, profile.enabled, sandboxId), MountPoint)
            && m.portMappings == config.portMappings && m.vncResolution == config.vncResolution
            && m.command == (if config.command.Some? then config.command
                             else if profile.enabled != [] then profile.defaultCommand else None)
            && m.features == (if profile.enabled != [] then profile.enabled else config.features)
  {
    AppendNewIsFirsts(config.exposedPorts, ContainerPorts(AllPorts(profile.available, profile.enabled)), SamePort);
    AppendNewIsFirsts(config.volumes, AllVolumes(profile.available, profile.enabled, sandboxId), MountPoint);
  }

  /** No two added volumes share a mount point, nor do they take one of the user's. */
  lemma {:induction false} FirstsAreNew<T, K>(base: seq<T>, xs: seq<T>, key: T -> K)
    ensures forall x | x in Firsts(base, xs, key) :: x in xs && !HasKey(base, key(x), key)
    ensures forall i, j | 0 <= i < j < |Firsts(base, xs, key)| :: key(Firsts(base, xs, key)[i]) != key(Firsts(base, xs, key)[j])
    decreases |xs|
  {
    if xs != [] {
      var init, last := xs[..|xs| - 1], xs[|xs| - 1];
      FirstsAreNew(base, init, key);
      assert xs == init + [last];
      forall x | x in Firsts(base, init, key) ensures HasKey(init, key(x), key) {
        assert x in init;
        var i :| 0 <= i < |init| && init[i] == x;
        assert key(init[i]) == key(x);
      }
    }
  }

  /** What is added is all that is new: every key is there afterwards, by the first element that has it. */
  lemma {:induction false} FirstsAreAll<T, K>(base: seq<T>, xs: seq<T>, key: T -> K)
    ensures forall x | x in xs :: HasKey(base + Firsts(base, xs, key), key(x), key)
    ensures forall x | x in Firsts(base, xs, key) ::
              exists i :: 0 <= i < |xs| && xs[i] == x && forall j | 0 <= j < i :: key(xs[j]) != key(x)
    decreases |xs|
  {
    AppendNewIsFirsts(base, xs, key);
    forall x | x in xs ensures HasKey(base + Firsts(base, xs, key), key(x), key) {
      var i :| 0 <= i < |xs| && xs[i] == x;
      assert key(xs[i]) == key(x);
      AppendNewKeys(base, xs, key, key(x));
    }
    if xs != [] {
      var init, last := xs[..|xs| - 1], xs[|xs| - 1];
      FirstsAreAll(base, init, key);
      forall x | x in Firsts(base, xs, key)
        ensures exists i :: 0 <= i < |xs| && xs[i] == x && forall j | 0 <= j < i :: key(xs[j]) != key(x)
      {
        if x in Firsts(base, init, key) {
          var i :| 0 <= i < |init| && init[i] == x && forall j | 0 <= j < i :: key(init[j]) != key(x);
          assert xs[i] == x && forall j | 0 <= j < i :: xs[j] == init[j];
        } else {
          assert x == last && !HasKey(init, key(last), key);
          assert forall j | 0 <= j < |init| :: xs[j] == init[j];
          assert xs[|xs| - 1] == x;
        }
      }
    }
  }

  /** After the merge a container port is exposed exactly if it was, or some enabled feature has it. */
  lemma ExposedPortsIff(config: ConfigValue, profile: FeatureProfile, sandboxId: string, port: nat)
    ensures port in Merged(config, profile, sandboxId).exposedPorts <==>
            || port in config.exposedPorts
            || exists name, d :: name in profile.enabled && name in profile.available
                                 && d in profile.available[name].ports && d.container == port
  {
    var ports := ContainerPorts(AllPorts(profile.available, profile.enabled));
    AppendNewKeys(config.exposedPorts, ports, SamePort, port);
    HasPort(AppendNew(config.exposedPorts, ports, SamePort), port);
    HasPort(config.exposedPorts, port);
    HasPort(ports, port);
    ContainerPortsIff(profile.available, profile.enabled, port);
  }

  /** After the merge every mount point of the user or a feature is taken, and by one added volume at most. */
  lemma MountPointsIff(config: ConfigValue, profile: FeatureProfile, sandboxId: string, path: string)
    ensures var m, all := Merged(config, profile, sandboxId).volumes, AllVolumes(profile.available, profile.enabled, sandboxId);
            && ((exists v :: v in m && v.containerPath == path) <==>
                (exists v :: v in config.volumes && v.containerPath == path) || exists v :: v in all && v.containerPath == path)
            && forall i, j | |config.volumes| <= i < j < |m| :: m[i].containerPath != m[j].containerPath
  {
    var all := AllVolumes(profile.available, profile.enabled, sandboxId);
    AppendNewKeys(config.volumes, all, MountPoint, path);
    AppendNewIsFirsts(config.volumes, all, MountPoint);
    FirstsAreNew(config.volumes, all, MountPoint);
    MountedAt(Merged(config, profile, sandboxId).volumes, path);
    MountedAt(config.volumes, path);
    MountedAt(all, path);
  }

  lemma MountedAt(volumes: seq<VolumeMount>, path: string)
    ensures HasKey(volumes, path, MountPoint) <==> exists v :: v in volumes && v.containerPath == path
  {
    if HasKey(volumes, path, MountPoint) {
      var i :| 0 <= i < |volumes| && MountPoint(volumes[i]) == path;
      assert volumes[i] in volumes && volumes[i].containerPath == path;
    }
    if v :| v in volumes && v.containerPath == path {
      var i :| 0 <= i < |volumes| && volumes[i] == v;
      assert MountPoint(volumes[i]) == path;
    }
  }
}
