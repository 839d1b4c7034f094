/** Command line overrides, folded over a hash map in whatever order it enumerates. */
module CliArgs {
  import opened Parsing
  import opened Sorting
  import opened Wrappers

  datatype Config = Config(
    serverPort: nat, serverHost: string, serverApiKey: Option<string>, databaseUrl: Option<string>,
    dockerRegistry: string, dockerHost: Option<string>, logLevel: string, sshPort: nat, sshApiUrl: string,
    inactivityTimeout: nat, cleanupDryRun: bool)

  type Args = map<string, string>

  // ---------- the meaning: one rule per field ----------

  function Given(args: Args, seen: seq<string>, key: string): Option<string> {
    if key in seen && key in args then Some(args[key]) else None
  }

  function Text(current: string, given: Option<string>): string {
    if given.Some? then given.value else current
  }

  function Unsigned(current: nat, given: Option<string>, max: nat): nat {
    if given.Some? && ParseUnsigned(given.value, max).Some? then ParseUnsigned(given.value, max).value else current
  }

  function Flag(current: bool, given: Option<string>): bool {
    if given.Some? && ParseBool(given.value).Some? then ParseBool(given.value).value else current
  }

  function Present(current: Option<string>, given: Option<string>): Option<string> {
    if given.Some? then given else current
  }

  predicate IsLevelKey(key: string) { key == "log.level" || key == "logging.level" }

  /** Two keys set the log level; the one enumerated last wins. */
  function LastLevel(current: string, args: Args, seen: seq<string>): string {
    if seen == [] then current
    else
      var last := seen[|seen| - 1];
      if IsLevelKey(last) && last in args then args[last] else LastLevel(current, args, seen[..|seen| - 1])
  }

  /** The configuration after the keys in `seen`. Absent keys and unreadable values change nothing. */
  function Overridden(c: Config, args: Args, seen: seq<string>): Config {
    Config(
      Unsigned(c.serverPort, Given(args, seen, "server.port"), U16_MAX),
      Text(c.serverHost, Given(args, seen, "server.host")),
      Present(c.serverApiKey, Given(args, seen, "server.api_key")),
      Present(c.databaseUrl, Given(args, seen, "database.url")),
      Text(c.dockerRegistry, Given(args, seen, "docker.registry")),
      Present(c.dockerHost, Given(args, seen, "docker.host")),
      LastLevel(c.logLevel, args, seen),
      Unsigned(c.sshPort, Given(args, seen, "ssh.port"), U16_MAX),
      Text(c.sshApiUrl, Given(args, seen, "ssh.api_url")),
      Unsigned(c.inactivityTimeout, Given(args, seen, "sandbox.default_inactivity_timeout"), U64_MAX),
      Flag(c.cleanupDryRun, Given(args, seen, "sandbox.cleanup_dry_run")))
  }

  // ---------- the loop ----------

  method MergeCliArgs(config: Config, args: Args, order: seq<string>) returns (merged: Config)
    requires Enumerates(order, args.Keys)
    ensures merged == Overridden(config, args, order)
    ensures IsNumber(args, "server.port", 65535, config.serverPort, merged.serverPort)
    ensures merged.serverHost == if "server.host" in args then args["server.host"] else config.serverHost
    ensures merged.serverApiKey == if "server.api_key" in args then Some(args["server.api_key"]) else config.serverApiKey
    ensures merged.databaseUrl == if "database.url" in args then Some(args["database.url"]) else config.databaseUrl
    ensures merged.dockerRegistry == if "docker.registry" in args then args["docker.registry"] else config.dockerRegistry
    ensures merged.dockerHost == if "docker.host" in args then Some(args["docker.host"]) else config.dockerHost
    ensures IsLevel(args, config.logLevel, merged.logLevel)
    ensures IsNumber(args, "ssh.port", 65535, config.sshPort, merged.sshPort)
    ensures merged.sshApiUrl == if "ssh.api_url" in args then args["ssh.api_url"] else config.sshApiUrl
    ensures IsNumber(args, "sandbox.default_inactivity_timeout", 18446744073709551615,
                     config.inactivityTimeout, merged.inactivityTimeout)
    ensures merged.cleanupDryRun ==
      if "sandbox.cleanup_dry_run" in args && args["sandbox.cleanup_dry_run"] == "true" then true
      else if "sandbox.cleanup_dry_run" in args && args["sandbox.cleanup_dry_run"] == "false" then false
      else config.cleanupDryRun
  {
    merged := config;
    for i := 0 to |order|
      invariant merged == Overridden(config, args, order[..i])
    {
      var key := order[i];
      TakeNext(order, i);
      merged := ApplyArg(merged, key, args[key], config, args, order[..i]);
    }
    assert order[..|order|] == order;
    OverriddenNumbers(config, args, order);
    OverriddenLevel(config, args, order);
  }

  // ---------- what it means, key by key ----------

  /** The number that the argument writes if it is in range; otherwise the old one. */
  ghost predicate IsNumber(args: Args, key: string, max: nat, was: nat, now: nat) {
    if key in args && exists n: nat :: Writes(args[key], n) && n <= max then Writes(args[key], now) && now <= max
    else now == was
  }

  /** One of the two names of the level, if any is given. */
  predicate IsLevel(args: Args, was: string, now: string) {
    if "log.level" in args then now == args["log.level"] || ("logging.level" in args && now == args["logging.level"])
    else if "logging.level" in args then now == args["logging.level"]
    else now == was
  }

  lemma UnsignedIsNumber(args: Args, order: seq<string>, key: string, max: nat, was: nat)
    requires Enumerates(order, args.Keys)
    ensures IsNumber(args, key, max, was, Unsigned(was, Given(args, order, key), max))
  {
    if key in args {
      forall n: nat ensures ParseUnsigned(args[key], max) == Some(n) <==> Writes(args[key], n) && n <= max {
        ParseGivesIff(args[key], max, n);
      }
    }
  }

  lemma OverriddenNumbers(config: Config, args: Args, order: seq<string>)
    requires Enumerates(order, args.Keys)
    ensures var merged := Overridden(config, args, order);
            && IsNumber(args, "server.port", 65535, config.serverPort, merged.serverPort)
            && IsNumber(args, "ssh.port", 65535, config.sshPort, merged.sshPort)
            && IsNumber(args, "sandbox.default_inactivity_timeout", 18446744073709551615,
                        config.inactivityTimeout, merged.inactivityTimeout)
  {
    UnsignedIsNumber(args, order, "server.port", U16_MAX, config.serverPort);
    UnsignedIsNumber(args, order, "ssh.port", U16_MAX, config.sshPort);
    UnsignedIsNumber(args, order, "sandbox.default_inactivity_timeout", U64_MAX, config.inactivityTimeout);
  }

  lemma {:induction false} LevelIsGiven(current: string, args: Args, seen: seq<string>)
    requires forall k | k in seen :: k in args
    ensures if "log.level" !in seen && "logging.level" !in seen then LastLevel(current, args, seen) == current
            else || ("log.level" in seen && LastLevel(current, args, seen) == args["log.level"])
                 || ("logging.level" in seen && LastLevel(current, args, seen) == args["logging.level"])
  {
    if seen != [] {
      var init, last := seen[..|seen| - 1], seen[|seen| - 1];
      assert seen == init + [last];
      LevelIsGiven(current, args, init);
    }
  }

  lemma OverriddenLevel(config: Config, args: Args, order: seq<string>)
    requires Enumerates(order, args.Keys)
    ensures IsLevel(args, config.logLevel, Overridden(config, args, order).logLevel)
  {
    LevelIsGiven(config.logLevel, args, order);
  }

  lemma TakeNext(order: seq<string>, i: nat)
    requires i < |order| && NoDuplicates(order)
    ensures order[i] in order && order[..i + 1] == order[..i] + [order[i]] && order[i] !in order[..i]
  {}

  method ApplyArg(c: Config, key: string, value: string, ghost start: Config, ghost args: Args, ghost seen: seq<string>)
    returns (r: Config)
    requires c == Overridden(start, args, seen) && key !in seen && key in args && args[key] == value
    ensures r == Overridden(start, args, seen + [key])
  {
    r := c;
    GivenGrows(args, seen, key);
    if key == "server.port" {
      var port := ParseUnsigned(value, U16_MAX);
      if port.Some? { r := r.(serverPort := port.value); }
    } else if key == "server.host" {
      r := r.(serverHost := value);
    } else if key == "server.api_key" {
      r := r.(serverApiKey := Some(value));
    } else if key == "database.url" {
      r := r.(databaseUrl := Some(value));
    } else if key == "docker.registry" {
      r := r.(dockerRegistry := value);
    } else if key == "docker.host" {
      r := r.(dockerHost := Some(value));
    } else if key == "log.level" || key == "logging.level" {
      r := r.(logLevel := value);
    } else if key == "ssh.port" {
      var port := ParseUnsigned(value, U16_MAX);
      if port.Some? { r := r.(sshPort := port.value); }
    } else if key == "ssh.api_url" {
      r := r.(sshApiUrl := value);
    } else if key == "sandbox.default_inactivity_timeout" {
      var timeout := ParseUnsigned(value, U64_MAX);
      if timeout.Some? { r := r.(inactivityTimeout := timeout.value); }
    } else if key == "sandbox.cleanup_dry_run" {
      var dryRun := ParseBool(value);
      if dryRun.Some? { r := r.(cleanupDryRun := dryRun.value); }
    }
  }

  lemma GivenGrows(args: Args, seen: seq<string>, key: string)
    requires key in args
    ensures forall k :: Given(args, seen + [key], k) == if k == key then Some(args[key]) else Given(args, seen, k)
    ensures forall current :: LastLevel(current, args, seen + [key])
                           == if IsLevelKey(key) then args[key] else LastLevel(current, args, seen)
  {
    assert (seen + [key])[..|seen|] == seen;
  }

  // ---------- arguments without effect ----------

  /** An unknown key, or a value that the key's type cannot read. */
  ghost predicate Useless(key: string, value: string) {
    if key == "server.port" || key == "ssh.port" then !Numeral(value, U16_MAX)
    else if key == "sandbox.default_inactivity_timeout" then !Numeral(value, U64_MAX)
    else if key == "sandbox.cleanup_dry_run" then value != "true" && value != "false"
    else
      && key != "server.host" && key != "server.api_key" && key != "database.url" && key != "docker.registry"
      && key != "docker.host" && !IsLevelKey(key) && key != "ssh.api_url"
  }

  lemma {:induction false} LevelIgnores(current: string, args: Args, a: seq<string>, key: string, b: seq<string>)
    requires !IsLevelKey(key)
    ensures LastLevel(current, args - {key}, a + b) == LastLevel(current, args, a + [key] + b)
    decreases |a| + |b|
  {
    if b != [] {
      var init, last := b[..|b| - 1], b[|b| - 1];
      assert (a + b)[..|a + b| - 1] == a + init && (a + [key] + b)[..|a + [key] + b| - 1] == a + [key] + init;
      LevelIgnores(current, args, a, key, init);
    } else {
      assert a + b == a && a + [key] + b == a + [key] && (a + [key])[..|a|] == a;
      if a != [] {
        var init, last := a[..|a| - 1], a[|a| - 1];
        assert init + [] == init && (init + [key] + [])[..|init|] == init;
        assert init + [key] + [] == init + [key];
        LevelIgnores(current, args, init, key, []);
        assert LastLevel(current, args, init + [key]) == LastLevel(current, args, init);
      }
    }
  }

  /**
   Such an argument may as well be left out: enumerating the others in the same order gives every field
   the value that it would have had.
   */
  lemma UselessArgIsIgnored(config: Config, args: Args, a: seq<string>, key: string, b: seq<string>)
    requires key in args && Useless(key, args[key]) && Enumerates(a + [key] + b, args.Keys)
    ensures Enumerates(a + b, (args - {key}).Keys)
    ensures Overridden(config, args - {key}, a + b) == Overridden(config, args, a + [key] + b)
  {
    WithoutKey(a, key, b);
    LevelIgnores(config.logLevel, args, a, key, b);
    ParseUnsignedIff(args[key], U16_MAX);
    ParseUnsignedIff(args[key], U64_MAX);
    assert forall k | k != key :: Given(args - {key}, a + b, k) == Given(args, a + [key] + b, k);
  }

  lemma WithoutKey(a: seq<string>, key: string, b: seq<string>)
    requires NoDuplicates(a + [key] + b)
    ensures NoDuplicates(a + b) && key !in a + b
    ensures forall k | k != key :: k in a + b <==> k in a + [key] + b
  {
    var all, rest := a + [key] + b, a + b;
    forall i | 0 <= i < |rest| ensures rest[i] == all[if i < |a| then i else i + 1] {}
    assert all[|a|] == key;
    forall k | k != key ensures k in rest <==> k in all {
      if k in all { var j :| 0 <= j < |all| && all[j] == k; assert rest[if j < |a| then j else j - 1] == k; }
    }
  }

  // ---------- order ----------

  predicate LevelsClash(args: Args) {
    "log.level" in args && "logging.level" in args && args["log.level"] != args["logging.level"]
  }

  lemma {:induction false} LevelWithoutClash(current: string, args: Args, seen: seq<string>)
    requires !LevelsClash(args) && forall k | k in seen :: k in args
    ensures LastLevel(current, args, seen)
         == if "log.level" in seen then args["log.level"]
            else if "logging.level" in seen then args["logging.level"] else current
  {
    if seen != [] {
      var init, last := seen[..|seen| - 1], seen[|seen| - 1];
      assert seen == init + [last];
      LevelWithoutClash(current, args, init);
    }
  }

  lemma {:induction false} SomeEnumeration(keys: set<string>) returns (order: seq<string>)
    ensures Enumerates(order, keys)
    decreases keys
  {
    if keys == {} {
      order := [];
    } else {
      var k :| k in keys;
      var rest := SomeEnumeration(keys - {k});
      order := rest + [k];
    }
  }

  lemma EnumerateTwoMore(rest: seq<string>, keys: set<string>, x: string, y: string)
    requires x in keys && y in keys && x != y && Enumerates(rest, keys - {x, y})
    ensures Enumerates(rest + [x] + [y], keys)
  {
    assert x !in rest && y !in rest;
    forall k ensures k in rest + [x] + [y] <==> k in keys {
      assert k in rest + [x] + [y] <==> k in rest || k == x || k == y;
    }
  }

  lemma ClashMatters(config: Config, args: Args) returns (a: seq<string>, b: seq<string>)
    requires LevelsClash(args)
    ensures Enumerates(a, args.Keys) && Enumerates(b, args.Keys)
    ensures Overridden(config, args, a) != Overridden(config, args, b)
  {
    var x, y := "log.level", "logging.level";
    assert {x, y} == {y, x};
    var rest := SomeEnumeration(args.Keys - {x, y});
    a, b := rest + [y] + [x], rest + [x] + [y];
    EnumerateTwoMore(rest, args.Keys, y, x);
    EnumerateTwoMore(rest, args.Keys, x, y);
    GivenGrows(args, rest + [y], x);
    GivenGrows(args, rest + [x], y);
    assert Overridden(config, args, a).logLevel == args["log.level"];
    assert Overridden(config, args, b).logLevel == args["logging.level"];
  }

  /**
   Every enumeration order of the arguments gives the same configuration, if and only if the two
   names of the log level are not both given with different values.
   */
  lemma OrderIrrelevantIff(config: Config, args: Args)
    ensures (forall a, b | Enumerates(a, args.Keys) && Enumerates(b, args.Keys) ::
               Overridden(config, args, a) == Overridden(config, args, b))
            <==> !LevelsClash(args)
  {
    if LevelsClash(args) {
      var a, b := ClashMatters(config, args);
    } else {
      forall a, b | Enumerates(a, args.Keys) && Enumerates(b, args.Keys)
        ensures Overridden(config, args, a) == Overridden(config, args, b)
      {
        LevelWithoutClash(config.logLevel, args, a);
        LevelWithoutClash(config.logLevel, args, b);
        assert forall k :: Given(args, a, k) == Given(args, b, k);
      }
    }
  }
}
