/**
 * `wofiwaypipe`: the menu of configured waypipe hosts and the waypipe
 * command line for the chosen one. The YAML file is given decoded (`None`
 * when it cannot be opened or parsed); wofi is an oracle as in `WofiSsh`.
 */
module WofiWaypipe {
  import opened Wrappers
  import opened Text
  import opened Sorting
  import opened WofiSsh

  /** One entry of the `hosts` map of the YAML file. */
  datatype Host = Host(arguments: string, application: string)

  datatype LaunchError =
    | ConfigUnreadable
    | WofiFailed
    | UnknownHost(host: string)

  const WaypipeWofiArgs: seq<string> := ["wofi", "--prompt", "Waypipe hosts:", "--dmenu", "--insensitive"]

  /** The `--arguments` flag replaces the host's own arguments unless it is empty. */
  function FinalArgs(flagArguments: string, hostConf: Host): (r: string)
    ensures flagArguments != "" ==> r == flagArguments
    ensures flagArguments == "" ==> r == hostConf.arguments
  {
    if flagArguments != "" then flagArguments else hostConf.arguments
  }

  // ---------------------------------------------------------------------------
  // The menu
  // ---------------------------------------------------------------------------

  /** Some listing of `keys`, each once, in no particular order. */
  ghost function KeyList(keys: set<string>): (r: seq<string>)
    ensures multiset(r) == multiset(keys)
    decreases keys
  {
    if keys == {} then []
    else
      var k :| k in keys;
      var rest := KeyList(keys - {k});
      assert multiset(keys) == multiset(keys - {k}) + multiset{k} by {
        assert keys == (keys - {k}) + {k};
      }
      rest + [k]
  }

  /** The host names in ascending order, each once. */
  ghost function SortedKeys(keys: set<string>): (r: seq<string>)
    ensures Sorted(r) && multiset(r) == multiset(keys)
  {
    Sort(KeyList(keys))
  }

  /** A listing that holds every key once and nothing else has no repeats. */
  lemma ListedOnce(names: seq<string>, keys: set<string>)
    requires multiset(names) == multiset(keys)
    ensures |names| == |keys|
    ensures forall k :: k in keys <==> k in names
    ensures forall i, j :: 0 <= i < j < |names| ==> names[i] != names[j]
  {
    assert |multiset(names)| == |names|;
    assert |multiset(keys)| == |keys|;
    forall k ensures k in keys <==> k in names {
      assert k in keys <==> k in multiset(keys);
      assert k in names <==> k in multiset(names);
    }
    forall i, j | 0 <= i < j < |names| ensures names[i] != names[j] {
      CountPair(names, i, j);
    }
  }

  /** Equal elements at two positions count twice. */
  lemma CountPair(names: seq<string>, i: nat, j: nat)
    requires i < j < |names|
    ensures multiset(names)[names[i]] >= if names[i] == names[j] then 2 else 1
  {
    var x := names[i];
    assert names == names[..j] + names[j..];
    assert names[..j][i] == x && names[j..][0] == names[j];
    assert multiset(names) == multiset(names[..j]) + multiset(names[j..]);
  }

  /** Sorted listings of the same keys are one and the same. */
  lemma SortedKeysUnique(names: seq<string>, keys: set<string>)
    requires Sorted(names) && multiset(names) == multiset(keys)
    ensures names == SortedKeys(keys)
  {
    SortedUnique(names, SortedKeys(keys));
  }

  lemma MultisetSnoc(names: seq<string>, done: set<string>, name: string)
    requires multiset(names) == multiset(done) && name !in done
    ensures multiset(names + [name]) == multiset(done + {name})
  {
    assert multiset(done + {name}) == multiset(done) + multiset{name};
  }

  /**
   * The name list of `waypipeShowWofi`: the keys appended in the map's (any)
   * order, then sorted. The result is the same whatever the order.
   */
  method HostNames(hosts: map<string, Host>) returns (names: seq<string>)
    ensures Sorted(names) && multiset(names) == multiset(hosts.Keys)
    ensures names == SortedKeys(hosts.Keys)
  {
    var hostNames: seq<string> := [];
    var rest := hosts.Keys;
    ghost var done: set<string> := {};
    while rest != {}
      invariant done !! rest && done + rest == hosts.Keys
      invariant multiset(hostNames) == multiset(done)
      decreases rest
    {
      var name :| name in rest;
      MultisetSnoc(hostNames, done, name);
      hostNames := hostNames + [name];
      done := done + {name};
      rest := rest - {name};
    }
    names := Sort(hostNames);
    SortedKeysUnique(names, hosts.Keys);
  }

  /** `waypipeShowWofi`: the sorted host names offered, the trimmed choice. */
  method WaypipeShowWofi(hosts: map<string, Host>, wofi: (seq<string>, string) -> Option<string>)
    returns (selected: Option<string>)
    ensures selected == Choose(WaypipeWofiArgs, SortedKeys(hosts.Keys), wofi)
  {
    var hostNames := HostNames(hosts);
    var output := wofi(WaypipeWofiArgs, Join(hostNames, "\n"));
    if output.None? {
      return None;
    }
    selected := Some(TrimSpace(output.value));
  }

  // ---------------------------------------------------------------------------
  // The waypipe command line
  // ---------------------------------------------------------------------------

  /** `waypipeToHost`: the words of the extra arguments, then `ssh`, the host and the application. */
  function WaypipeArgs(argsStr: string, host: string, application: string): (args: seq<string>)
    ensures |args| == |Fields(argsStr)| + 3
    ensures args[..|Fields(argsStr)|] == Fields(argsStr)
    ensures args[|Fields(argsStr)|..] == ["ssh", host, application]
  {
    var extra := if argsStr != "" then Fields(argsStr) else [];
    FieldsOfBlank("");
    extra + ["ssh", host, application]
  }

  /** Arguments written as words separated by single spaces come back as those words. */
  lemma WaypipeArgsWords(words: seq<string>, host: string, application: string)
    requires AllTokens(words)
    ensures WaypipeArgs(Join(words, " "), host, application) == words + ["ssh", host, application]
  {
    FieldsJoin(words);
    var args := WaypipeArgs(Join(words, " "), host, application);
    assert args == args[..|words|] + args[|words|..];
  }

  /** What the `wofiwaypipe` command runs, or why it stops. */
  ghost function Outcome(hosts: map<string, Host>, flagArguments: string,
                         wofi: (seq<string>, string) -> Option<string>): Result<seq<string>, LaunchError>
  {
    var choice := Choose(WaypipeWofiArgs, SortedKeys(hosts.Keys), wofi);
    if choice.None? then Err(WofiFailed)
    else if choice.value !in hosts then Err(UnknownHost(choice.value))
    else
      var conf := hosts[choice.value];
      Ok(WaypipeArgs(FinalArgs(flagArguments, conf), choice.value, conf.application))
  }

  /**
   * The `Run` closure of `wofiwaypipe`: the waypipe arguments for the chosen
   * host. A config that cannot be read, a failing wofi and a choice that is
   * not a configured host are errors.
   */
  method Launch(config: Option<map<string, Host>>, flagArguments: string,
                wofi: (seq<string>, string) -> Option<string>)
    returns (r: Result<seq<string>, LaunchError>)
    ensures config.None? ==> r == Err(ConfigUnreadable)
    ensures config.Some? ==> r == Outcome(config.value, flagArguments, wofi)
  {
    if config.None? {
      return Err(ConfigUnreadable);
    }
    var hosts := config.value;
    var selectedHost := WaypipeShowWofi(hosts, wofi);
    if selectedHost.None? {
      return Err(WofiFailed);
    }
    if selectedHost.value !in hosts {
      return Err(UnknownHost(selectedHost.value));
    }
    var hostConf := hosts[selectedHost.value];
    var finalArgs := hostConf.arguments;
    if flagArguments != "" {
      finalArgs := flagArguments;
    }
    r := Ok(WaypipeArgs(finalArgs, selectedHost.value, hostConf.application));
  }

  /**
   * A launch names a configured host, as chosen (trimmed), and ends with
   * `ssh`, that host and its application; an unknown choice is reported as such.
   */
  lemma OutcomeHost(hosts: map<string, Host>, flagArguments: string,
                    wofi: (seq<string>, string) -> Option<string>)
    ensures var r := Outcome(hosts, flagArguments, wofi);
            var choice := Choose(WaypipeWofiArgs, SortedKeys(hosts.Keys), wofi);
            (r.Ok? <==> choice.Some? && choice.value in hosts)
            && (r.Ok? ==> Trimmed(choice.value)
                          && r.value[|r.value| - 3..] == ["ssh", choice.value, hosts[choice.value].application])
            && (choice.Some? ==> (r == Err(UnknownHost(choice.value)) <==> choice.value !in hosts))
  {
  }
}
