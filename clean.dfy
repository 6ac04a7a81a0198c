/**
 * `clean`: which of six fixed directories under the home directory are
 * removed, after a single "delete all" question or one question per
 * directory, and whether `journalctl` is asked to vacuum its logs.
 *
 * Standard input is the sequence of words `fmt.Scan` would read in turn;
 * removing a directory and running a command are oracles that report
 * success. A failure ends the command (`log.Fatal`).
 */
module Clean {
  import opened Text
  import opened Attempts

  // ---------------------------------------------------------------------------
  // Answers
  // ---------------------------------------------------------------------------

  /** `formatInput`: outer white space trimmed, then lower-cased. */
  function FormatInput(input: string): string {
    ToLower(TrimSpace(input))
  }

  /** Lower-casing leaves white space where it was. */
  lemma LowerCharSpace(c: char)
    ensures IsSpace(LowerChar(c)) <==> IsSpace(c)
  {
  }

  lemma ToLowerTrimmed(s: string)
    requires Trimmed(s)
    ensures Trimmed(ToLower(s))
  {
    ToLowerEach(s);
    if s != [] {
      LowerCharSpace(s[0]);
      LowerCharSpace(s[|s| - 1]);
    }
  }

  /** A normalised answer normalises to itself. */
  lemma FormatInputIdempotent(input: string)
    ensures FormatInput(FormatInput(input)) == FormatInput(input)
  {
    var t := TrimSpace(input);
    TrimSpaceTrimmed(input);
    ToLowerTrimmed(t);
    TrimSpaceOfTrimmed(ToLower(t));
    ToLowerIdempotent(t);
  }

  /** The two normalised answers that say yes. */
  predicate IsYes(confirm: string) {
    confirm == "y" || confirm == "yes"
  }

  /** An answer confirms when its normalised form is `y` or `yes`. */
  predicate Confirms(answer: string) {
    IsYes(FormatInput(answer))
  }

  /** `c` is the lower-case letter `lower` in either case. */
  predicate EitherCase(c: char, lower: char)
    requires 'a' <= lower <= 'z'
  {
    c == lower || c as int == lower as int - 32
  }

  lemma LowerCharIs(c: char, lower: char)
    requires 'a' <= lower <= 'z'
    ensures LowerChar(c) == lower <==> EitherCase(c, lower)
  {
  }

  /**
   * An answer confirms exactly when, without its outer white space, it is
   * `y` or `yes` in any mixture of cases.
   */
  lemma ConfirmsForms(answer: string)
    ensures var t := TrimSpace(answer);
            Confirms(answer) <==>
              (|t| == 1 && EitherCase(t[0], 'y'))
              || (|t| == 3 && EitherCase(t[0], 'y') && EitherCase(t[1], 'e') && EitherCase(t[2], 's'))
  {
    var t := TrimSpace(answer);
    var l := ToLower(t);
    ToLowerEach(t);
    if |t| == 1 {
      LowerCharIs(t[0], 'y');
      assert l == "y" <==> l[0] == 'y';
    } else if |t| == 3 {
      LowerCharIs(t[0], 'y');
      LowerCharIs(t[1], 'e');
      LowerCharIs(t[2], 's');
      assert l == "yes" <==> l[0] == 'y' && l[1] == 'e' && l[2] == 's';
    }
  }

  /** Normalising an answer first does not change whether it confirms. */
  lemma ConfirmsFormatted(answer: string)
    ensures Confirms(FormatInput(answer)) == Confirms(answer)
  {
    FormatInputIdempotent(answer);
  }

  // ---------------------------------------------------------------------------
  // The paths and the journal command
  // ---------------------------------------------------------------------------

  const Suffixes: seq<string> :=
    ["/.cache", "/.java", "/.npm", "/.ansible", "/.bash_history", "/.local/share/Trash"]

  /** The directories `clean` offers to remove, in the order it offers them. */
  function CleanPaths(home: string): (r: seq<string>)
    ensures |r| == |Suffixes|
  {
    [home + "/.cache", home + "/.java", home + "/.npm",
     home + "/.ansible", home + "/.bash_history", home + "/.local/share/Trash"]
  }

  /** Every path is the home directory, a slash and a fixed suffix; no path is offered twice. */
  lemma CleanPathsShape(home: string)
    ensures var paths := CleanPaths(home);
            (forall i :: 0 <= i < |paths| ==>
               HasPrefix(paths[i], home + "/") && paths[i][|home|..] == Suffixes[i])
            && Distinct(paths)
  {
    var paths := CleanPaths(home);
    forall i | 0 <= i < |paths|
      ensures HasPrefix(paths[i], home + "/") && paths[i][|home|..] == Suffixes[i]
    {
      assert paths[i] == home + Suffixes[i];
      HasPrefixAppend(home, Suffixes[i]);
      assert (home + Suffixes[i])[|home|..] == Suffixes[i];
      assert Suffixes[i][0] == '/';
      assert (home + "/") == paths[i][..|home| + 1];
    }
    forall i, j | 0 <= i < j < |paths| ensures paths[i] != paths[j] {
      assert paths[i][|home|..] == Suffixes[i] && paths[j][|home|..] == Suffixes[j];
    }
  }

  predicate Distinct(paths: seq<string>) {
    forall i, j :: 0 <= i < j < |paths| ==> paths[i] != paths[j]
  }

  const JournalArgs: seq<string> := ["sudo", "journalctl", "--vacuum-time", "1d"]

  // ---------------------------------------------------------------------------
  // Which paths are chosen
  // ---------------------------------------------------------------------------

  /**
   * One `fmt.Scan` into `confirm` as the source calls it: the next word, or,
   * at the end of the input, the previous value of `confirm` unchanged.
   */
  function ScanAsWritten(confirm: string, input: seq<string>): (string, seq<string>) {
    if input == [] then (confirm, []) else (input[0], input[1..])
  }

  /**
   * The per-directory questions as the source asks them: an unanswered
   * question reuses the previous (normalised) answer.
   */
  function PerPathAsWritten(confirm: string, input: seq<string>, paths: seq<string>): seq<string>
    decreases |paths|
  {
    if paths == [] then []
    else
      var (word, rest) := ScanAsWritten(confirm, input);
      var answer := FormatInput(word);
      (if IsYes(answer) then [paths[0]] else []) + PerPathAsWritten(answer, rest, paths[1..])
  }

  /** The paths the source removes, before any removal fails. */
  function SelectedAsWritten(noPrompt: bool, input: seq<string>, paths: seq<string>): seq<string> {
    if noPrompt then paths
    else
      var (word, rest) := ScanAsWritten("", input);
      var answer := FormatInput(word);
      if IsYes(answer) then paths else PerPathAsWritten(answer, rest, paths)
  }

  /**
   * Answering `n` to "delete all" and `y` for the first directory, then
   * closing the input, removes every directory: the later questions go
   * unanswered and reuse the `y`. Reading the end of the input as "no"
   * removes the first directory only.
   */
  lemma StaleAnswer(home: string)
    ensures SelectedAsWritten(false, ["n", "y"], CleanPaths(home)) == CleanPaths(home)
    ensures Selected(false, ["n", "y"], CleanPaths(home)) == [CleanPaths(home)[0]]
  {
    StaleAnswerAny(CleanPaths(home));
  }

  lemma StaleAnswerAny(paths: seq<string>)
    requires paths != []
    ensures SelectedAsWritten(false, ["n", "y"], paths) == paths
    ensures Selected(false, ["n", "y"], paths) == [paths[0]]
  {
    FormatLetter('n');
    FormatLetter('y');
    var w: seq<string> := ["n", "y"];
    assert w[0] == "n" && w[1..] == ["y"] && ["y"][1..] == [];
    assert ScanAsWritten("", w) == ("n", ["y"]);
    assert Scan(w) == ("n", ["y"]);
    assert !IsYes("n");
    assert PerPathAsWritten("n", ["y"], paths) == [paths[0]] + PerPathAsWritten("y", [], paths[1..]);
    StaleRepeats(paths[1..]);
    assert PerPath(["y"], paths) == [paths[0]] + PerPath([], paths[1..]);
    NoAnswersNothing(paths[1..]);
  }

  /** A one-letter answer in lower case is its own normal form. */
  lemma FormatLetter(c: char)
    requires 'a' <= c <= 'z'
    ensures FormatInput([c]) == [c]
  {
    TrimSpaceOfTrimmed([c]);
    assert ToLower([c]) == [LowerChar(c)] + ToLower([]);
  }

  lemma {:induction false} StaleRepeats(paths: seq<string>)
    requires FormatInput("y") == "y"
    ensures PerPathAsWritten("y", [], paths) == paths
    decreases |paths|
  {
    if paths != [] {
      StaleRepeats(paths[1..]);
    }
  }

  lemma {:induction false} NoAnswersNothing(paths: seq<string>)
    ensures PerPath([], paths) == []
    decreases |paths|
  {
    if paths != [] {
      assert !Confirms("") by {
        TrimSpaceOfTrimmed("");
      }
      NoAnswersNothing(paths[1..]);
    }
  }

  /** One answer with the end of the input read as "no": the next word, or the empty answer. */
  function Scan(input: seq<string>): (string, seq<string>) {
    if input == [] then ("", []) else (input[0], input[1..])
  }

  /** The per-directory questions, each answered by its own word of the input. */
  function PerPath(input: seq<string>, paths: seq<string>): seq<string>
    decreases |paths|
  {
    if paths == [] then []
    else
      var (word, rest) := Scan(input);
      (if Confirms(word) then [paths[0]] else []) + PerPath(rest, paths[1..])
  }

  /** The paths `clean` removes, before any removal fails. */
  function Selected(noPrompt: bool, input: seq<string>, paths: seq<string>): seq<string> {
    if noPrompt then paths
    else
      var (word, rest) := Scan(input);
      if Confirms(word) then paths else PerPath(rest, paths)
  }

  /** While every question is answered, the reading of the source and `Selected` agree. */
  lemma {:induction false} PerPathAgrees(confirm: string, input: seq<string>, paths: seq<string>)
    requires |input| >= |paths|
    ensures PerPathAsWritten(confirm, input, paths) == PerPath(input, paths)
    decreases |paths|
  {
    if paths != [] {
      PerPathAgrees(FormatInput(input[0]), input[1..], paths[1..]);
    }
  }

  lemma SelectedAgrees(noPrompt: bool, input: seq<string>, paths: seq<string>)
    requires |input| > |paths|
    ensures SelectedAsWritten(noPrompt, input, paths) == Selected(noPrompt, input, paths)
  {
    if !noPrompt {
      PerPathAgrees(FormatInput(input[0]), input[1..], paths);
    }
  }

  /** `xs` is `ys` with some elements left out. */
  predicate Subsequence(xs: seq<string>, ys: seq<string>)
    decreases |ys|
  {
    if xs == [] then true
    else if ys == [] then false
    else if xs[0] == ys[0] then Subsequence(xs[1..], ys[1..])
    else Subsequence(xs, ys[1..])
  }

  /** The i-th directory's own answer is the (i+1)-th word; past the end it is "no". */
  predicate AnswerConfirms(input: seq<string>, i: nat) {
    i < |input| && Confirms(input[i])
  }

  lemma PerPathCons(input: seq<string>, paths: seq<string>)
    requires paths != []
    ensures PerPath(input, paths)
            == (if Confirms(Scan(input).0) then [paths[0]] else []) + PerPath(Scan(input).1, paths[1..])
  {
  }

  lemma DistinctTail(paths: seq<string>)
    requires paths != [] && Distinct(paths)
    ensures Distinct(paths[1..]) && paths[0] !in paths[1..]
  {
    var tail := paths[1..];
    assert forall k :: 0 <= k < |tail| ==> tail[k] == paths[k + 1];
  }

  /** The chosen directories keep the order of the list. */
  lemma {:induction false} PerPathOrdered(input: seq<string>, paths: seq<string>)
    requires Distinct(paths)
    ensures Subsequence(PerPath(input, paths), paths)
    decreases |paths|
  {
    if paths != [] {
      var rest, tail := Scan(input).1, paths[1..];
      DistinctTail(paths);
      PerPathOrdered(rest, tail);
      PerPathInside(rest, tail);
      PerPathCons(input, paths);
      var t := PerPath(rest, tail);
      if Confirms(Scan(input).0) {
        var r := [paths[0]] + t;
        assert r[0] == paths[0] && r[1..] == t;
      } else {
        assert PerPath(input, paths) == [] + t == t;
        if t != [] {
          assert t[0] in tail;
          assert t[0] != paths[0];
        }
      }
    }
  }

  /** A directory is chosen exactly when its own answer confirms. */
  lemma {:induction false} PerPathChosen(input: seq<string>, paths: seq<string>)
    requires Distinct(paths)
    ensures forall i :: 0 <= i < |paths| ==> (paths[i] in PerPath(input, paths) <==> AnswerConfirms(input, i))
    decreases |paths|
  {
    if paths != [] {
      var word, rest, tail := Scan(input).0, Scan(input).1, paths[1..];
      DistinctTail(paths);
      PerPathChosen(rest, tail);
      PerPathInside(rest, tail);
      PerPathCons(input, paths);
      var t := PerPath(rest, tail);
      forall i | 0 <= i < |paths|
        ensures paths[i] in PerPath(input, paths) <==> AnswerConfirms(input, i)
      {
        if i == 0 {
          assert paths[0] !in t;
        } else {
          assert paths[i] == tail[i - 1];
          AnswerShift(input, i);
        }
      }
    }
  }

  lemma AnswerShift(input: seq<string>, i: nat)
    requires i > 0
    ensures AnswerConfirms(input, i) <==> AnswerConfirms(Scan(input).1, i - 1)
  {
    if input != [] {
      assert i < |input| ==> input[i] == input[1..][i - 1];
    }
  }

  /** Only offered directories are chosen. */
  lemma {:induction false} PerPathInside(input: seq<string>, paths: seq<string>)
    ensures forall p :: p in PerPath(input, paths) ==> p in paths
    decreases |paths|
  {
    if paths != [] {
      PerPathInside(Scan(input).1, paths[1..]);
    }
  }

  /**
   * With `--yes`, or a confirming first answer, every directory is removed in
   * list order; otherwise exactly those whose own answer (the word after the
   * first) confirms, in list order.
   */
  lemma SelectedRule(noPrompt: bool, input: seq<string>, paths: seq<string>)
    requires Distinct(paths)
    ensures noPrompt || AnswerConfirms(input, 0) ==> Selected(noPrompt, input, paths) == paths
    ensures !noPrompt && !AnswerConfirms(input, 0) ==>
              Subsequence(Selected(noPrompt, input, paths), paths)
              && forall i :: 0 <= i < |paths| ==>
                   (paths[i] in Selected(noPrompt, input, paths) <==> AnswerConfirms(input, i + 1))
  {
    if !noPrompt && !AnswerConfirms(input, 0) {
      var rest := Scan(input).1;
      if input == [] {
        assert !Confirms("") by {
          TrimSpaceOfTrimmed("");
        }
      }
      PerPathOrdered(rest, paths);
      PerPathChosen(rest, paths);
      forall i | 0 <= i < |paths| ensures AnswerConfirms(rest, i) <==> AnswerConfirms(input, i + 1) {
        AnswerShift(input, i + 1);
      }
    }
  }

  // ---------------------------------------------------------------------------
  // The command
  // ---------------------------------------------------------------------------

  /** The directories removal was tried on, the commands run, and whether `clean` ended fatally. */
  datatype Outcome = Outcome(removed: seq<string>, commands: seq<seq<string>>, fatal: bool)

  /** What `clean` does, given the words of its input and the oracles' answers. */
  function Expected(home: string, noPrompt: bool, journal: bool, input: seq<string>,
                    removeOk: string -> bool, run: seq<string> -> bool): Outcome
  {
    var chosen := Selected(noPrompt, input, CleanPaths(home));
    var tried := RunUntilFailure(chosen, removeOk);
    if SomeFails(chosen, removeOk) then Outcome(tried, [], true)
    else if journal then Outcome(tried, [JournalArgs], !run(JournalArgs))
    else Outcome(tried, [], false)
  }

  /** The journal is vacuumed only when asked for, and only once every chosen path is removed. */
  lemma ExpectedJournal(home: string, noPrompt: bool, journal: bool, input: seq<string>,
                        removeOk: string -> bool, run: seq<string> -> bool)
    ensures var o := Expected(home, noPrompt, journal, input, removeOk, run);
            var chosen := Selected(noPrompt, input, CleanPaths(home));
            (o.commands != [] <==> journal && !SomeFails(chosen, removeOk))
            && (o.commands != [] ==> o.commands == [JournalArgs] && o.removed == chosen)
            && (!o.fatal ==> o.removed == chosen)
  {
    RunStops(Selected(noPrompt, input, CleanPaths(home)), removeOk);
  }

  /** What is still to be removed from position `i` on, and how much of the input is left. */
  function Pending(deleteAll: bool, input: seq<string>, paths: seq<string>, i: nat): seq<string>
    requires i <= |paths|
  {
    if deleteAll then paths[i..] else PerPath(input, paths[i..])
  }

  /** One directory of the loop: its removal is tried when it is chosen, and a failure ends the loop. */
  lemma RemoveStep(chosen: seq<string>, removed: seq<string>, remove: bool, dir: string,
                   next: seq<string>, removeOk: string -> bool)
    requires var pending := (if remove then [dir] else []) + next;
             RunUntilFailure(chosen, removeOk) == removed + RunUntilFailure(pending, removeOk)
             && SomeFails(chosen, removeOk) == SomeFails(pending, removeOk)
    ensures var done := if remove then removed + [dir] else removed;
            if remove && !removeOk(dir) then
              RunUntilFailure(chosen, removeOk) == done && SomeFails(chosen, removeOk)
            else
              RunUntilFailure(chosen, removeOk) == done + RunUntilFailure(next, removeOk)
              && SomeFails(chosen, removeOk) == SomeFails(next, removeOk)
  {
    if remove {
      assert (if remove then [dir] else []) + next == [dir] + next;
      var rest := RunUntilFailure(next, removeOk);
      RunCons(dir, next, removeOk);
      if removeOk(dir) {
        assert removed + ([dir] + rest) == removed + [dir] + rest;
      } else {
        assert [dir] + [] == [dir];
      }
    } else {
      assert [] + next == next;
    }
  }

  /**
   * The `Run` closure of `clean`, with the end of the input read as "no".
   * It asks the questions, removes the chosen directories in order until one
   * fails, and then runs the journal vacuum when `journal` is set.
   */
  method Clean(home: string, noPrompt: bool, journal: bool, input: seq<string>,
               removeOk: string -> bool, run: seq<string> -> bool)
    returns (o: Outcome)
    ensures o == Expected(home, noPrompt, journal, input, removeOk, run)
  {
    var cleanPaths := CleanPaths(home);
    var removed, fatal := RemoveChosen(cleanPaths, noPrompt, input, removeOk);
    if fatal {
      return Outcome(removed, [], true);
    }
    if journal {
      var ok := run(JournalArgs);
      return Outcome(removed, [JournalArgs], !ok);
    }
    return Outcome(removed, [], false);
  }

  /**
   * The questions and removals of the loop over the directories: the chosen
   * ones are removed in order until a removal fails.
   */
  method RemoveChosen(paths: seq<string>, noPrompt: bool, input: seq<string>, removeOk: string -> bool)
    returns (removed: seq<string>, fatal: bool)
    ensures removed == RunUntilFailure(Selected(noPrompt, input, paths), removeOk)
    ensures fatal == SomeFails(Selected(noPrompt, input, paths), removeOk)
  {
    ghost var chosen := Selected(noPrompt, input, paths);
    var deleteAll, words := AskAll(noPrompt, input, paths);
    ghost var pending := chosen;
    removed := [];
    for i := 0 to |paths|
      invariant pending == Pending(deleteAll, words, paths, i)
      invariant RunUntilFailure(chosen, removeOk) == removed + RunUntilFailure(pending, removeOk)
      invariant SomeFails(chosen, removeOk) == SomeFails(pending, removeOk)
    {
      var dir := paths[i];
      var remove;
      remove, words := AskOne(deleteAll, words, paths, i);
      ghost var next := Pending(deleteAll, words, paths, i + 1);
      RemoveStep(chosen, removed, remove, dir, next, removeOk);
      pending := next;
      if remove {
        removed := removed + [dir];
        if !removeOk(dir) {
          return removed, true;
        }
      }
    }
    PendingDone(deleteAll, words, paths);
    fatal := false;
  }

  /** The "delete all" question, unless `--yes` skips it. */
  method AskAll(noPrompt: bool, input: seq<string>, ghost paths: seq<string>)
    returns (deleteAll: bool, words: seq<string>)
    ensures Pending(deleteAll, words, paths, 0) == Selected(noPrompt, input, paths)
  {
    deleteAll := false;
    words := input;
    if noPrompt {
      deleteAll := true;
    } else {
      var confirm;
      confirm, words := Ask(words);
      if IsYes(confirm) {
        deleteAll := true;
      }
    }
    assert paths[0..] == paths;
  }

  /** Directory `i`: removed without a question when all are, otherwise when its answer says so. */
  method AskOne(deleteAll: bool, words: seq<string>, ghost paths: seq<string>, i: nat)
    returns (remove: bool, rest: seq<string>)
    requires i < |paths|
    ensures Pending(deleteAll, words, paths, i)
            == (if remove then [paths[i]] else []) + Pending(deleteAll, rest, paths, i + 1)
  {
    remove := deleteAll;
    rest := words;
    if !deleteAll {
      var confirm;
      confirm, rest := Ask(words);
      remove := IsYes(confirm);
    }
    PendingStep(deleteAll, words, paths, i);
  }

  /** One prompt: the next word, normalised (empty at the end of the input). */
  method Ask(words: seq<string>) returns (confirm: string, rest: seq<string>)
    ensures confirm == FormatInput(Scan(words).0) && rest == Scan(words).1
    ensures IsYes(confirm) == Confirms(Scan(words).0)
  {
    var word := "";
    rest := words;
    if rest != [] {
      word := rest[0];
      rest := rest[1..];
    }
    confirm := FormatInput(word);
  }

  lemma PendingDone(deleteAll: bool, input: seq<string>, paths: seq<string>)
    ensures Pending(deleteAll, input, paths, |paths|) == []
  {
    assert paths[|paths|..] == [];
  }

  lemma PendingStep(deleteAll: bool, input: seq<string>, paths: seq<string>, i: nat)
    requires i < |paths|
    ensures var next := if deleteAll then input else Scan(input).1;
            var remove := deleteAll || Confirms(Scan(input).0);
            Pending(deleteAll, input, paths, i)
            == (if remove then [paths[i]] else []) + Pending(deleteAll, next, paths, i + 1)
  {
    assert paths[i..][1..] == paths[i + 1..];
    assert paths[i..] == [paths[i]] + paths[i + 1..];
  }
}
