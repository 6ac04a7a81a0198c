/**
 * Decimal integers as `strconv.Atoi` reads them and `strconv.Itoa` writes
 * them (64-bit `int`).
 */
module Decimal {
  import opened Wrappers

  const MinInt64: int := -0x8000_0000_0000_0000
  const MaxInt64: int := 0x7fff_ffff_ffff_ffff

  predicate IsDigit(c: char) {
    '0' <= c <= '9'
  }

  predicate AllDigits(s: string) {
    forall i :: 0 <= i < |s| ==> IsDigit(s[i])
  }

  /** The value of a string of decimal digits, most significant first. */
  function DigitsValue(s: string): nat
    requires AllDigits(s)
    decreases |s|
  {
    if s == [] then 0
    else
      assert AllDigits(s[..|s| - 1]) by {
        assert forall i :: 0 <= i < |s| - 1 ==> s[..|s| - 1][i] == s[i];
      }
      assert IsDigit(s[|s| - 1]);
      DigitsValue(s[..|s| - 1]) * 10 + (s[|s| - 1] as int - '0' as int)
  }

  /**
   * `strconv.Atoi`: an optional sign, then one or more decimal digits, in the
   * range of a 64-bit `int`; anything else is an error.
   */
  function Atoi(s: string): Option<int> {
    if s == [] then None
    else
      var negative := s[0] == '-';
      var digits := if s[0] == '-' || s[0] == '+' then s[1..] else s;
      if digits == [] || !AllDigits(digits) then None
      else
        var v := if negative then -(DigitsValue(digits) as int) else DigitsValue(digits) as int;
        if v < MinInt64 || v > MaxInt64 then None else Some(v)
  }

  function DigitChar(d: nat): char
    requires d < 10
  {
    ('0' as int + d) as char
  }

  /** The decimal digits of `n`, without leading zeros. */
  function NatDigits(n: nat): (s: string)
    ensures s != [] && AllDigits(s)
    decreases n
  {
    if n < 10 then [DigitChar(n)]
    else
      var prefix := NatDigits(n / 10);
      DigitsSnoc(prefix, DigitChar(n % 10));
      prefix + [DigitChar(n % 10)]
  }

  lemma DigitsSnoc(s: string, c: char)
    requires AllDigits(s) && IsDigit(c)
    ensures AllDigits(s + [c])
  {
    assert forall i :: 0 <= i < |s| ==> (s + [c])[i] == s[i];
  }

  /** `strconv.Itoa`. */
  function Itoa(n: int): string {
    if n < 0 then "-" + NatDigits(-n) else NatDigits(n)
  }

  lemma {:induction false} NatDigitsValue(n: nat)
    ensures DigitsValue(NatDigits(n)) == n
    decreases n
  {
    if n >= 10 {
      NatDigitsValue(n / 10);
      var s := NatDigits(n);
      assert s[..|s| - 1] == NatDigits(n / 10);
    }
  }

  /** `Atoi` reads back what `Itoa` writes. */
  lemma AtoiItoa(n: int)
    requires MinInt64 <= n <= MaxInt64
    ensures Atoi(Itoa(n)) == Some(n)
  {
    if n < 0 {
      NatDigitsValue(-n);
      AtoiNegative(NatDigits(-n));
    } else {
      NatDigitsValue(n);
      AtoiDigits(NatDigits(n));
    }
  }

  lemma AtoiDigits(s: string)
    requires s != [] && AllDigits(s) && DigitsValue(s) <= MaxInt64
    ensures Atoi(s) == Some(DigitsValue(s))
  {
    assert IsDigit(s[0]);
  }

  lemma AtoiNegative(s: string)
    requires s != [] && AllDigits(s) && DigitsValue(s) <= -MinInt64
    ensures Atoi("-" + s) == Some(-(DigitsValue(s) as int))
  {
    assert ("-" + s)[1..] == s;
  }
}

/**
 * The audio handlers: the volume shown for a device (the truncated mean of
 * its channel percentages), the default-device marking of `getAudioInfo`,
 * and the pactl commands `ProcessAudioActions` runs for each action. Running
 * pactl is an oracle `run` telling whether a command line succeeds; decoded
 * JSON is given as values, a decoding failure as `None`.
 */
module Audio {
  import opened Wrappers
  import opened Text
  import opened Decimal
  import opened Attempts

  // ---------------------------------------------------------------------------
  // Volume aggregation
  // ---------------------------------------------------------------------------

  /** A channel's `value_percent` with its trailing "%" removed, as a number. */
  function Percent(valuePercent: string): Option<int> {
    Atoi(TrimSuffix(valuePercent, '%'))
  }

  /** A running total and count, after one more channel. */
  function Add(acc: (int, nat), p: Option<int>): (int, nat) {
    if p.Some? then (acc.0 + p.value, acc.1 + 1) else acc
  }

  ghost function Pick(keys: set<string>): (k: string)
    requires keys != {}
    ensures k in keys
  {
    var k :| k in keys; k
  }

  /** The total and the number of the percentages of channels `keys` that parse. */
  ghost function Parsed(volume: map<string, string>, keys: set<string>): (int, nat)
    requires keys <= volume.Keys
    decreases keys
  {
    if keys == {} then (0, 0)
    else
      var k := Pick(keys);
      Add(Parsed(volume, keys - {k}), Percent(volume[k]))
  }

  /** The total and the number of the channel percentages that parse. */
  ghost function ParsedAll(volume: map<string, string>): (int, nat) {
    Parsed(volume, volume.Keys)
  }

  /** Go's `/` on `int`: truncation toward zero. */
  function GoDiv(a: int, b: int): int
    requires b > 0
  {
    if a >= 0 then a / b else -((-a) / b)
  }

  /** The aggregated volume: the truncated mean, 0 without parsable channels. */
  function Mean(acc: (int, nat)): int {
    if acc.1 == 0 then 0 else GoDiv(acc.0, acc.1)
  }

  /** Two channels can be added in either order. */
  lemma AddCommute(acc: (int, nat), p: Option<int>, q: Option<int>)
    ensures Add(Add(acc, p), q) == Add(Add(acc, q), p)
  {
  }

  /** Channels can be taken in any order: removing any one of them adds it last. */
  lemma {:induction false} ParsedRemove(volume: map<string, string>, keys: set<string>, k: string)
    requires keys <= volume.Keys && k in keys
    ensures Parsed(volume, keys) == Add(Parsed(volume, keys - {k}), Percent(volume[k]))
    decreases keys
  {
    var j := Pick(keys);
    assert Parsed(volume, keys) == Add(Parsed(volume, keys - {j}), Percent(volume[j]));
    if j != k {
      var rest := keys - {j} - {k};
      assert keys - {k} - {j} == rest;
      ParsedRemove(volume, keys - {j}, k);
      ParsedRemove(volume, keys - {k}, j);
      AddCommute(Parsed(volume, rest), Percent(volume[k]), Percent(volume[j]));
    }
  }

  /** A channel whose percentage does not parse changes neither total nor count. */
  lemma ParsedIgnores(volume: map<string, string>, k: string, valuePercent: string)
    requires k !in volume && Percent(valuePercent).None?
    ensures ParsedAll(volume[k := valuePercent]) == ParsedAll(volume)
  {
    var m := volume[k := valuePercent];
    ParsedRemove(m, m.Keys, k);
    assert m.Keys - {k} == volume.Keys;
    ParsedSame(m, volume, volume.Keys);
  }

  /** Only the channels counted matter. */
  lemma {:induction false} ParsedSame(a: map<string, string>, b: map<string, string>, keys: set<string>)
    requires keys <= a.Keys && keys <= b.Keys
    requires forall k :: k in keys ==> a[k] == b[k]
    ensures Parsed(a, keys) == Parsed(b, keys)
    decreases keys
  {
    if keys != {} {
      ParsedSame(a, b, keys - {Pick(keys)});
    }
  }

  /** Every parsable percentage of channels `keys` lies in `lo..hi`. */
  ghost predicate InRange(volume: map<string, string>, keys: set<string>, lo: int, hi: int)
    requires keys <= volume.Keys
  {
    forall k :: k in keys && Percent(volume[k]).Some? ==> lo <= Percent(volume[k]).value <= hi
  }

  /** One more channel in `lo..hi` keeps the total between `count * lo` and `count * hi`. */
  lemma AddBounds(acc: (int, nat), p: Option<int>, lo: int, hi: int)
    requires acc.1 * lo <= acc.0 <= acc.1 * hi
    requires p.Some? ==> lo <= p.value <= hi
    ensures Add(acc, p).1 * lo <= Add(acc, p).0 <= Add(acc, p).1 * hi
  {
    if p.Some? {
      Distrib(acc.1, lo);
      Distrib(acc.1, hi);
    }
  }

  lemma Distrib(c: int, x: int)
    ensures (c + 1) * x == c * x + x
  {
  }

  lemma {:induction false} ParsedBounds(volume: map<string, string>, keys: set<string>, lo: int, hi: int)
    requires keys <= volume.Keys && InRange(volume, keys, lo, hi)
    ensures Parsed(volume, keys).1 * lo <= Parsed(volume, keys).0 <= Parsed(volume, keys).1 * hi
    decreases keys
  {
    if keys != {} {
      var k := Pick(keys);
      assert InRange(volume, keys - {k}, lo, hi);
      ParsedBounds(volume, keys - {k}, lo, hi);
      AddBounds(Parsed(volume, keys - {k}), Percent(volume[k]), lo, hi);
    }
  }

  lemma MulCancel(c: int, x: int, y: int)
    requires c > 0 && c * x < c * y
    ensures x < y
  {
  }

  lemma DivLower(t: int, c: int, lo: int)
    requires c > 0 && c * lo <= t
    ensures lo <= t / c
  {
    var q := t / c;
    assert c * q + t % c == t;
    assert c * (q + 1) == c * q + c;
    MulCancel(c, lo, q + 1);
  }

  lemma DivUpper(t: int, c: int, hi: int)
    requires c > 0 && t <= c * hi
    ensures t / c <= hi
  {
    var q := t / c;
    assert c * q + t % c == t;
    assert c * (hi + 1) == c * hi + c;
    MulCancel(c, q, hi + 1);
  }

  /** Truncating division keeps a total between `c * lo` and `c * hi` within `lo..hi`. */
  lemma GoDivBounds(t: int, c: int, lo: int, hi: int)
    requires c > 0 && c * lo <= t <= c * hi
    ensures lo <= GoDiv(t, c) <= hi
  {
    if t >= 0 {
      DivLower(t, c, lo);
      DivUpper(t, c, hi);
    } else {
      assert c * -hi == -(c * hi) && c * -lo == -(c * lo);
      DivLower(-t, c, -hi);
      DivUpper(-t, c, -lo);
    }
  }

  /** The mean of channel percentages that all lie in `lo..hi` lies in `lo..hi`. */
  lemma MeanBounds(volume: map<string, string>, lo: int, hi: int)
    requires InRange(volume, volume.Keys, lo, hi) && ParsedAll(volume).1 > 0
    ensures lo <= Mean(ParsedAll(volume)) <= hi
  {
    ParsedBounds(volume, volume.Keys, lo, hi);
    GoDivBounds(ParsedAll(volume).0, ParsedAll(volume).1, lo, hi);
  }

  /** `aggregateVolume`: the channels are visited in the map's (any) order. */
  method AggregateVolume(volume: map<string, string>) returns (avg: int)
    ensures avg == Mean(ParsedAll(volume))
  {
    var total := 0;
    var count := 0;
    var rest := volume.Keys;
    while rest != {}
      invariant rest <= volume.Keys
      invariant total + Parsed(volume, rest).0 == ParsedAll(volume).0
      invariant count + Parsed(volume, rest).1 == ParsedAll(volume).1
      decreases rest
    {
      var channel :| channel in rest;
      ParsedRemove(volume, rest, channel);
      ghost var after := Parsed(volume, rest - {channel});
      var percentStr := TrimSuffix(volume[channel], '%');
      var val := Atoi(percentStr);
      assert Parsed(volume, rest) == Add(after, val);
      if val.Some? {
        total := total + val.value;
        count := count + 1;
      }
      rest := rest - {channel};
    }
    if count == 0 {
      return 0;
    }
    avg := if total >= 0 then total / count else -((-total) / count);
  }

  // ---------------------------------------------------------------------------
  // Device listing
  // ---------------------------------------------------------------------------

  /** A device of `pactl --format json list`: the fields the handler reads. */
  datatype RawDevice = RawDevice(
    name: string,
    volume: map<string, string>,
    mute: bool,
    description: string,
    nickname: string)

  datatype AudioInfo = AudioInfo(
    name: string,
    volume: int,
    mute: bool,
    isDefault: bool,
    description: string,
    nickname: string)

  /** The `pactl` query for the default device, for sinks and sources only. */
  function DefaultQuery(deviceType: string): (q: Option<string>)
    ensures q.Some? <==> deviceType == "sinks" || deviceType == "sources"
  {
    if deviceType == "sinks" then Some("get-default-sink")
    else if deviceType == "sources" then Some("get-default-source")
    else None
  }

  /** The info of a device before the default is marked. */
  ghost function Info(device: RawDevice): AudioInfo {
    AudioInfo(device.name, Mean(ParsedAll(device.volume)), device.mute, false,
              device.description, device.nickname)
  }

  /**
   * `getAudioInfo` for the decoded device list (`None` when pactl or the JSON
   * fails) and the output of the default query (`None` when that fails): one
   * info per device, in order, marked default exactly when its name is the
   * trimmed default name; a failing default query returns the infos unmarked
   * with an error.
   */
  method GetAudioInfo(deviceType: string, devices: Option<seq<RawDevice>>, defaultOutput: Option<string>)
    returns (infos: seq<AudioInfo>, failed: bool)
    ensures devices.None? ==> infos == [] && failed
    ensures devices.Some? ==> failed == (DefaultQuery(deviceType).Some? && defaultOutput.None?)
    ensures devices.Some? ==> |infos| == |devices.value|
    ensures devices.Some? ==> forall i :: 0 <= i < |infos| ==>
              infos[i] == Info(devices.value[i]).(isDefault := IsDefault(deviceType, defaultOutput, devices.value[i].name))
  {
    if devices.None? {
      return [], true;
    }
    var ds := devices.value;
    var audioInfos := new AudioInfo[|ds|];
    var i := 0;
    while i < |ds|
      invariant 0 <= i <= |ds|
      invariant forall j :: 0 <= j < i ==> audioInfos[j] == Info(ds[j])
    {
      var dev := ds[i];
      var v := AggregateVolume(dev.volume);
      audioInfos[i] := AudioInfo(dev.name, v, dev.mute, false, dev.description, dev.nickname);
      i := i + 1;
    }
    var query := DefaultQuery(deviceType);
    if query.Some? {
      if defaultOutput.None? {
        return audioInfos[..], true;
      }
      var defaultName := TrimSpace(defaultOutput.value);
      MarkDefault(audioInfos, defaultName);
    }
    infos, failed := audioInfos[..], false;
  }

  /** Whether the device named `name` is marked default. */
  function IsDefault(deviceType: string, defaultOutput: Option<string>, name: string): bool {
    DefaultQuery(deviceType).Some? && defaultOutput.Some? && name == TrimSpace(defaultOutput.value)
  }

  /** The marking loop of `getAudioInfo`, in place. */
  method MarkDefault(infos: array<AudioInfo>, defaultName: string)
    modifies infos
    ensures forall i :: 0 <= i < infos.Length ==>
              infos[i] == old(infos[i]).(isDefault := old(infos[i]).isDefault || infos[i].name == defaultName)
  {
    var i := 0;
    while i < infos.Length
      invariant 0 <= i <= infos.Length
      invariant forall j :: 0 <= j < i ==>
                  infos[j] == old(infos[j]).(isDefault := old(infos[j]).isDefault || infos[j].name == defaultName)
      invariant forall j :: i <= j < infos.Length ==> infos[j] == old(infos[j])
    {
      if infos[i].name == defaultName {
        infos[i] := infos[i].(isDefault := true);
      }
      i := i + 1;
    }
  }

  // ---------------------------------------------------------------------------
  // Volume actions
  // ---------------------------------------------------------------------------

  /** A decoded volume action; `kind` is the JSON `type`. */
  datatype VolumeAction = VolumeAction(
    device: string,
    adjust: int,
    muted: bool,
    setDefault: bool,
    kind: string)

  function Clamp(adjust: int): (v: int)
    ensures 0 <= v <= 100
    ensures 0 <= adjust <= 100 ==> v == adjust
    ensures adjust < 0 ==> v == 0
    ensures adjust > 100 ==> v == 100
  {
    if adjust < 0 then 0 else if adjust > 100 then 100 else adjust
  }

  /** The defaults `ProcessAudioActions` fills in before running commands. */
  function Normalize(a: VolumeAction): (n: VolumeAction)
    ensures a.kind == "" ==> n.kind == "sink"
    ensures a.kind != "" ==> n.kind == a.kind
    ensures a.device != "" ==> n.device == a.device
    ensures a.device == "" ==> n.device == (if a.kind == "source" then "@DEFAULT_SOURCE@" else "@DEFAULT_SINK@")
    ensures n.adjust == Clamp(a.adjust) && n.muted == a.muted && n.setDefault == a.setDefault
  {
    var kind := if a.kind == "" then "sink" else a.kind;
    var device := if a.device != "" then a.device
                  else if kind == "source" then "@DEFAULT_SOURCE@" else "@DEFAULT_SINK@";
    a.(kind := kind, device := device, adjust := Clamp(a.adjust))
  }

  /** Filling in the defaults twice changes nothing more. */
  lemma NormalizeIdempotent(a: VolumeAction)
    ensures Normalize(Normalize(a)) == Normalize(a)
  {
  }

  function MuteArgs(a: VolumeAction): seq<string> {
    ["pactl", "set-" + a.kind + "-mute", a.device, if a.muted then "1" else "0"]
  }

  function VolumeArg(adjust: int): string {
    Itoa(adjust) + "%"
  }

  function VolumeArgs(a: VolumeAction): seq<string> {
    ["pactl", "set-" + a.kind + "-volume", a.device, VolumeArg(a.adjust)]
  }

  function DefaultArgs(a: VolumeAction): seq<string> {
    ["pactl", "set-default-" + a.kind, a.device]
  }

  /** The volume argument reads back, as a channel percentage, as the clamped value. */
  lemma VolumeArgPercent(a: VolumeAction)
    ensures Percent(VolumeArg(Normalize(a).adjust)) == Some(Clamp(a.adjust))
  {
    var v := Clamp(a.adjust);
    var s := Itoa(v);
    assert (s + "%")[..|s|] == s;
    AtoiItoa(v);
  }

  /** The commands for one normalised action, in order. */
  function Planned(a: VolumeAction): seq<seq<string>> {
    [MuteArgs(a), VolumeArgs(a)] + (if a.setDefault then [DefaultArgs(a)] else [])
  }

  /** All commands of `actions`, action by action. */
  function Trace(actions: seq<VolumeAction>, run: seq<string> -> bool): seq<seq<string>>
    decreases |actions|
  {
    if actions == [] then []
    else Trace(actions[..|actions| - 1], run)
         + RunUntilFailure(Planned(Normalize(actions[|actions| - 1])), run)
  }

  lemma TraceStep(actions: seq<VolumeAction>, i: nat, run: seq<string> -> bool)
    requires i < |actions|
    ensures Trace(actions[..i + 1], run) == Trace(actions[..i], run) + RunUntilFailure(Planned(Normalize(actions[i])), run)
  {
    var p := actions[..i + 1];
    assert p[..i] == actions[..i] && p[i] == actions[i];
  }

  /** Running the plan of one action stops at its first failing command. */
  lemma PlannedRun(a: VolumeAction, run: seq<string> -> bool)
    ensures RunUntilFailure(Planned(a), run)
         == [MuteArgs(a)]
            + (if !run(MuteArgs(a)) then []
               else [VolumeArgs(a)]
                    + (if !run(VolumeArgs(a)) || !a.setDefault then [] else [DefaultArgs(a)]))
  {
    var last := if a.setDefault then [DefaultArgs(a)] else [];
    assert Planned(a) == [MuteArgs(a)] + ([VolumeArgs(a)] + last);
    RunCons(MuteArgs(a), [VolumeArgs(a)] + last, run);
    RunCons(VolumeArgs(a), last, run);
    if a.setDefault {
      RunCons(DefaultArgs(a), [], run);
      assert [DefaultArgs(a)] + [] == [DefaultArgs(a)];
    }
  }

  /**
   * `ProcessAudioActions` for the decoded actions (`None` when the JSON does
   * not decode): the commands run, and whether it returned an error. A
   * failing command skips the rest of its action only.
   */
  method ProcessAudioActions(actions: Option<seq<VolumeAction>>, run: seq<string> -> bool)
    returns (commands: seq<seq<string>>, failed: bool)
    ensures failed <==> actions.None?
    ensures actions.None? ==> commands == []
    ensures actions.Some? ==> commands == Trace(actions.value, run)
  {
    if actions.None? {
      return [], true;
    }
    var list := actions.value;
    commands := [];
    var i := 0;
    while i < |list|
      invariant 0 <= i <= |list|
      invariant commands == Trace(list[..i], run)
    {
      var action := FillDefaults(list[i]);
      var ran := RunPlan(action, run);
      TraceStep(list, i, run);
      commands := commands + ran;
      i := i + 1;
    }
    assert list[..i] == list;
    failed := false;
  }

  /** The defaults of one iteration of the action loop, filled in field by field. */
  method FillDefaults(input: VolumeAction) returns (action: VolumeAction)
    ensures action == Normalize(input)
  {
    action := input;
    if action.kind == "" {
      action := action.(kind := "sink");
    }
    if action.device == "" {
      if action.kind == "source" {
        action := action.(device := "@DEFAULT_SOURCE@");
      } else {
        action := action.(device := "@DEFAULT_SINK@");
      }
    }
    if action.adjust < 0 {
      action := action.(adjust := 0);
    } else if action.adjust > 100 {
      action := action.(adjust := 100);
    }
  }

  /** The commands of one iteration of the action loop, each run only if the previous succeeded. */
  method RunPlan(action: VolumeAction, run: seq<string> -> bool) returns (ran: seq<seq<string>>)
    ensures ran == RunUntilFailure(Planned(action), run)
  {
    PlannedRun(action, run);
    var muteVal := if action.muted then "1" else "0";
    var muteCmd := ["pactl", "set-" + action.kind + "-mute", action.device, muteVal];
    ran := [muteCmd];
    if !run(muteCmd) {
      return;
    }
    var volumeStr := Itoa(action.adjust) + "%";
    var setVolumeCmd := ["pactl", "set-" + action.kind + "-volume", action.device, volumeStr];
    ran := ran + [setVolumeCmd];
    if !run(setVolumeCmd) {
      return;
    }
    if action.setDefault {
      var setDefaultCmd := ["pactl", "set-default-" + action.kind, action.device];
      ran := ran + [setDefaultCmd];
    }
  }
}
