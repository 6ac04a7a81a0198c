/**
 * `wofissh`: the host names of an ssh config file, the wofi menu built from
 * them and the shell command that opens the chosen host.
 *
 * Reading a file is given as its lines (`None` when it cannot be opened).
 * `Include` resolution runs behind two oracles: `glob` maps a path pattern
 * to its matches (`None` for a malformed pattern) and `included` maps a
 * matched file to the host names read from it (`None` when that fails).
 */
module WofiSsh {
  import opened Wrappers
  import opened Text
  import opened Sorting

  // ---------------------------------------------------------------------------
  // Lines of the config file
  // ---------------------------------------------------------------------------

  /** What one line of an ssh config file is to `getHosts`, once trimmed. */
  datatype LineKind =
    | HostLine(names: seq<string>)
    | IncludeLine(patterns: seq<string>)
    | OtherLine

  /**
   * `Include ` and `Host ` lines (with the space) give the words after the
   * keyword; an `Include ` line with fewer than two words gives no pattern.
   */
  function Classify(raw: string): LineKind {
    var line := TrimSpace(raw);
    if HasPrefix(line, "Include ") then
      var fields := Fields(line);
      if |fields| < 2 then IncludeLine([]) else IncludeLine(fields[1..])
    else if HasPrefix(line, "Host ") then
      TrimSpaceTrimmed(raw);
      KeywordFields(line, "Host");
      HostLine(Fields(line)[1..])
    else OtherLine
  }

  /** A `Host ` line names exactly the words after the keyword, at least one. */
  lemma HostLineNames(raw: string)
    requires HasPrefix(TrimSpace(raw), "Host ")
    ensures Classify(raw) == HostLine(Fields(TrimSpace(raw)[5..]))
    ensures Fields(TrimSpace(raw)[5..]) != []
    ensures AllTokens(Classify(raw).names)
  {
    var line := TrimSpace(raw);
    TrimSpaceTrimmed(raw);
    HostKeyword(line);
    FieldsTokens(line[5..]);
  }

  lemma HostKeyword(line: string)
    requires Trimmed(line) && HasPrefix(line, "Host ")
    ensures !HasPrefix(line, "Include ")
    ensures Fields(line)[1..] == Fields(line[5..]) != []
  {
    HostNotInclude(line);
    KeywordFields(line, "Host");
    var f := Fields(line[5..]);
    assert (["Host"] + f)[1..] == f;
  }

  lemma HostNotInclude(line: string)
    requires HasPrefix(line, "Host ")
    ensures !HasPrefix(line, "Include ")
  {
    assert line[4] == ' ' by {
      assert line[..5][4] == ' ';
    }
    if |line| >= 8 {
      assert line[..8][4] == line[4];
    }
  }

  /**
   * An `Include ` line names the patterns after the keyword, and there is
   * always at least one: the guard against fewer than two words never fires.
   */
  lemma IncludeLinePatterns(raw: string)
    requires HasPrefix(TrimSpace(raw), "Include ")
    ensures Classify(raw) == IncludeLine(Fields(TrimSpace(raw)[8..]))
    ensures Fields(TrimSpace(raw)[8..]) != []
  {
    var line := TrimSpace(raw);
    TrimSpaceTrimmed(raw);
    KeywordFields(line, "Include");
    var f := Fields(line[8..]);
    assert (["Include"] + f)[1..] == f;
  }

  /**
   * The keyword needs its space: a line that starts with `HostName` (or any
   * other word beginning with `Host`) is not a `Host ` line, and contributes
   * no name.
   */
  lemma HostNameIsOther(configFile: string, raw: string, glob: string -> Option<seq<string>>,
                        included: string -> Option<seq<string>>)
    requires HasPrefix(TrimSpace(raw), "HostName")
    ensures Classify(raw) == OtherLine
    ensures FromLine(configFile, raw, glob, included) == []
  {
    var line := TrimSpace(raw);
    assert line[4] == 'N' by {
      assert line[..8][4] == 'N';
    }
    assert line[..5] != "Host " by {
      assert line[..5][4] == line[4];
    }
    assert !HasPrefix(line, "Include ") by {
      assert line[..8][0] == 'H';
    }
  }

  // ---------------------------------------------------------------------------
  // Paths of Include patterns
  // ---------------------------------------------------------------------------

  function IsAbs(path: string): bool {
    HasPrefix(path, "/")
  }

  /** `filepath.Dir` without the lexical clean-up: the text before the last slash. */
  function Dir(path: string): string {
    var i := LastIndexOf(path, '/');
    if i < 0 then "." else if i == 0 then "/" else path[..i]
  }

  /** `filepath.Join` of two parts, without the lexical clean-up. */
  function JoinPath(dir: string, name: string): string {
    if dir == "." then name
    else if dir == "/" then "/" + name
    else dir + "/" + name
  }

  /** The path an `Include` pattern names for the config file `configFile`. */
  function Resolve(configFile: string, pattern: string): string {
    if IsAbs(pattern) then pattern else JoinPath(Dir(configFile), pattern)
  }

  /**
   * Absolute patterns are kept; relative ones are taken in the directory of
   * the config file.
   */
  lemma ResolveInDir(dir: string, file: string, pattern: string)
    requires '/' !in file && dir != "" && dir != "." && dir != "/"
    ensures IsAbs(pattern) ==> Resolve(dir + "/" + file, pattern) == pattern
    ensures !IsAbs(pattern) ==> Resolve(dir + "/" + file, pattern) == dir + "/" + pattern
  {
    LastIndexOfAt(dir, '/', file);
    assert (dir + "/" + file)[..|dir|] == dir;
  }

  // ---------------------------------------------------------------------------
  // The host names a config file contributes
  // ---------------------------------------------------------------------------

  function OrNone(hosts: Option<seq<string>>): seq<string> {
    if hosts.Some? then hosts.value else []
  }

  /** The host names of the matched files, in match order; failing files give none. */
  function FromMatches(matches: seq<string>, included: string -> Option<seq<string>>): seq<string>
    decreases |matches|
  {
    if matches == [] then []
    else FromMatches(matches[..|matches| - 1], included) + OrNone(included(matches[|matches| - 1]))
  }

  /** The host names included through `patterns`, pattern by pattern. */
  function FromPatterns(configFile: string, patterns: seq<string>,
                        glob: string -> Option<seq<string>>,
                        included: string -> Option<seq<string>>): seq<string>
    decreases |patterns|
  {
    if patterns == [] then []
    else
      var matches := glob(Resolve(configFile, patterns[|patterns| - 1]));
      FromPatterns(configFile, patterns[..|patterns| - 1], glob, included)
      + (if matches.Some? then FromMatches(matches.value, included) else [])
  }

  function FromLine(configFile: string, raw: string,
                    glob: string -> Option<seq<string>>,
                    included: string -> Option<seq<string>>): seq<string>
  {
    match Classify(raw)
    case HostLine(names) => names
    case IncludeLine(patterns) => FromPatterns(configFile, patterns, glob, included)
    case OtherLine => []
  }

  /** The host names of `lines`, line by line, before sorting. */
  function Collected(configFile: string, lines: seq<string>,
                     glob: string -> Option<seq<string>>,
                     included: string -> Option<seq<string>>): seq<string>
    decreases |lines|
  {
    if lines == [] then []
    else Collected(configFile, lines[..|lines| - 1], glob, included)
         + FromLine(configFile, lines[|lines| - 1], glob, included)
  }

  /**
   * What `included` returns for some file that `glob` matched for one of
   * `patterns`, resolved against the config file's directory.
   */
  ghost predicate FromIncluded(h: string, configFile: string, patterns: seq<string>,
                               glob: string -> Option<seq<string>>,
                               included: string -> Option<seq<string>>)
  {
    exists j, m :: 0 <= j < |patterns| && glob(Resolve(configFile, patterns[j])).Some?
                   && m in glob(Resolve(configFile, patterns[j])).value
                   && included(m).Some? && h in included(m).value
  }

  lemma {:induction false} FromMatchesIncluded(matches: seq<string>, included: string -> Option<seq<string>>, h: string)
    requires h in FromMatches(matches, included)
    ensures exists m :: m in matches && included(m).Some? && h in included(m).value
    decreases |matches|
  {
    var init := matches[..|matches| - 1];
    var last := matches[|matches| - 1];
    if h in FromMatches(init, included) {
      FromMatchesIncluded(init, included, h);
      var m :| m in init && included(m).Some? && h in included(m).value;
      assert m in matches;
    } else {
      assert h in OrNone(included(last));
    }
  }

  lemma {:induction false} FromPatternsIncluded(configFile: string, patterns: seq<string>,
                                               glob: string -> Option<seq<string>>,
                                               included: string -> Option<seq<string>>, h: string)
    requires h in FromPatterns(configFile, patterns, glob, included)
    ensures FromIncluded(h, configFile, patterns, glob, included)
    decreases |patterns|
  {
    var init := patterns[..|patterns| - 1];
    var last := |patterns| - 1;
    var path := Resolve(configFile, patterns[last]);
    if h in FromPatterns(configFile, init, glob, included) {
      FromPatternsIncluded(configFile, init, glob, included, h);
      var j, m :| 0 <= j < |init| && glob(Resolve(configFile, init[j])).Some?
                  && m in glob(Resolve(configFile, init[j])).value
                  && included(m).Some? && h in included(m).value;
      assert init[j] == patterns[j];
    } else {
      FromMatchesIncluded(glob(path).value, included, h);
      var m :| m in glob(path).value && included(m).Some? && h in included(m).value;
    }
  }

  /**
   * An `Include ` line never contributes its own words: every name it gives
   * was read from a file that one of the words after `Include` matched.
   */
  lemma IncludeLineIncluded(configFile: string, raw: string,
                            glob: string -> Option<seq<string>>,
                            included: string -> Option<seq<string>>, h: string)
    requires HasPrefix(TrimSpace(raw), "Include ")
    requires h in FromLine(configFile, raw, glob, included)
    ensures FromIncluded(h, configFile, Fields(TrimSpace(raw)[8..]), glob, included)
  {
    IncludeLinePatterns(raw);
    FromPatternsIncluded(configFile, Classify(raw).patterns, glob, included, h);
  }

  lemma CollectedStep(configFile: string, lines: seq<string>, i: nat,
                      glob: string -> Option<seq<string>>,
                      included: string -> Option<seq<string>>)
    requires i < |lines|
    ensures Collected(configFile, lines[..i + 1], glob, included)
         == Collected(configFile, lines[..i], glob, included) + FromLine(configFile, lines[i], glob, included)
  {
    var p := lines[..i + 1];
    assert p[..i] == lines[..i] && p[i] == lines[i];
  }

  // ---------------------------------------------------------------------------
  // getHosts
  // ---------------------------------------------------------------------------

  /** The host names of the files matched by one pattern. */
  method ExpandMatches(matches: seq<string>, included: string -> Option<seq<string>>)
    returns (found: seq<string>)
    ensures found == FromMatches(matches, included)
  {
    found := [];
    var k := 0;
    while k < |matches|
      invariant 0 <= k <= |matches|
      invariant found == FromMatches(matches[..k], included)
    {
      assert matches[..k + 1][..k] == matches[..k];
      var subHosts := included(matches[k]);
      if subHosts.Some? {
        found := found + subHosts.value;
      }
      k := k + 1;
    }
    assert matches[..k] == matches;
  }

  /** The host names an `Include` line brings in, pattern by pattern. */
  method ExpandPatterns(configFile: string, patterns: seq<string>,
                        glob: string -> Option<seq<string>>,
                        included: string -> Option<seq<string>>)
    returns (found: seq<string>)
    ensures found == FromPatterns(configFile, patterns, glob, included)
  {
    found := [];
    var j := 0;
    while j < |patterns|
      invariant 0 <= j <= |patterns|
      invariant found == FromPatterns(configFile, patterns[..j], glob, included)
    {
      assert patterns[..j + 1][..j] == patterns[..j];
      var path := patterns[j];
      if !IsAbs(path) {
        path := JoinPath(Dir(configFile), path);
      }
      var matches := glob(path);
      if matches.Some? {
        var subHosts := ExpandMatches(matches.value, included);
        found := found + subHosts;
      }
      j := j + 1;
    }
    assert patterns[..j] == patterns;
  }

  /** One turn of the scanner loop of `getHosts`: the names the line contributes. */
  method ScanLine(configFile: string, raw: string,
                  glob: string -> Option<seq<string>>,
                  included: string -> Option<seq<string>>)
    returns (found: seq<string>)
    ensures found == FromLine(configFile, raw, glob, included)
  {
    found := [];
    var line := TrimSpace(raw);
    if HasPrefix(line, "Include ") {
      var fields := Fields(line);
      if |fields| >= 2 {
        found := ExpandPatterns(configFile, fields[1..], glob, included);
      }
    } else if HasPrefix(line, "Host ") {
      TrimSpaceTrimmed(raw);
      KeywordFields(line, "Host");
      var fields := Fields(line);
      found := fields[1..];
    }
  }

  /**
   * `getHosts`: an error when the file cannot be opened; otherwise the
   * collected host names, sorted, duplicates kept.
   */
  method GetHosts(configFile: string, file: Option<seq<string>>,
                  glob: string -> Option<seq<string>>,
                  included: string -> Option<seq<string>>)
    returns (hosts: seq<string>, failed: bool)
    ensures failed <==> file.None?
    ensures file.None? ==> hosts == []
    ensures file.Some? ==> Sorted(hosts)
    ensures file.Some? ==> multiset(hosts) == multiset(Collected(configFile, file.value, glob, included))
    ensures file.Some? ==> hosts == Sort(Collected(configFile, file.value, glob, included))
  {
    if file.None? {
      return [], true;
    }
    var lines := file.value;
    hosts := [];
    var i := 0;
    while i < |lines|
      invariant 0 <= i <= |lines|
      invariant hosts == Collected(configFile, lines[..i], glob, included)
    {
      CollectedStep(configFile, lines, i, glob, included);
      var found := ScanLine(configFile, lines[i], glob, included);
      hosts := hosts + found;
      i := i + 1;
    }
    assert lines[..i] == lines;
    hosts := Sort(hosts);
    failed := false;
  }

  // ---------------------------------------------------------------------------
  // showWofi and sshToHost
  // ---------------------------------------------------------------------------

  const WofiArgs: seq<string> := ["wofi", "--prompt", "SSH hosts:", "--dmenu", "--insensitive"]

  /** wofi's standard input: one option per line. */
  function Menu(options: seq<string>): string {
    Join(options, "\n")
  }

  /** Options without line breaks are the lines of the menu. */
  lemma MenuLines(options: seq<string>)
    requires options != [] && NoneHolds(options, '\n')
    ensures Split(Menu(options), '\n') == options
  {
    SplitJoin(options, '\n');
  }

  /**
   * wofi run as `argv` with the menu on its standard input, as an oracle from
   * the command line and the input to the output (`None` when it fails): the
   * choice is the output without outer white space.
   */
  function Choose(argv: seq<string>, options: seq<string>,
                  wofi: (seq<string>, string) -> Option<string>): (r: Option<string>)
    ensures r.None? <==> wofi(argv, Menu(options)).None?
    ensures r.Some? ==> Trimmed(r.value)
  {
    var output := wofi(argv, Menu(options));
    if output.None? then None
    else
      TrimSpaceTrimmed(output.value);
      Some(TrimSpace(output.value))
  }

  /** The choice is the trimmed output: trimming it again changes nothing. */
  lemma ChooseTrimmed(argv: seq<string>, options: seq<string>,
                      wofi: (seq<string>, string) -> Option<string>)
    requires Choose(argv, options, wofi).Some?
    ensures Choose(argv, options, wofi).value == TrimSpace(wofi(argv, Menu(options)).value)
    ensures TrimSpace(Choose(argv, options, wofi).value) == Choose(argv, options, wofi).value
  {
    TrimSpaceIdempotent(wofi(argv, Menu(options)).value);
  }

  /** `showWofi`: the hosts offered by the SSH prompt. */
  function ShowWofi(hosts: seq<string>, wofi: (seq<string>, string) -> Option<string>): Option<string> {
    Choose(WofiArgs, hosts, wofi)
  }

  /** `sshToHost`: `sh -c "<terminal> '<host>'"`. */
  function SshArgv(host: string, terminal: string): seq<string> {
    ["sh", "-c", terminal + " '" + host + "'"]
  }

  /** The shell command is the terminal, a space, and the host in single quotes. */
  lemma SshArgvHost(host: string, terminal: string)
    ensures var c := SshArgv(host, terminal)[2];
            |c| == |terminal| + |host| + 3
            && c[..|terminal|] == terminal
            && c[|terminal|..|terminal| + 2] == " '"
            && c[|terminal| + 2..|c| - 1] == host
            && c[|c| - 1] == '\''
  {
    var c := SshArgv(host, terminal)[2];
    assert c == terminal + " '" + host + "'";
  }
}
