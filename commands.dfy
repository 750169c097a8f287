/** The commands CameraControl issues to the device tool and what one set or
    get does to the control table (main.py:75-100). The tool itself is not
    modelled: a command is recorded in a log, a set command's success is an
    input, and a get command's printed output is an input. */
module Commands {
  import opened Values
  import opened ControlListing

  /** `v4l2-ctl -l`, `--get-ctrl name`, `--set-ctrl name=val`. */
  datatype Command = ListCtrls | GetCtrl(name: string) | SetCtrl(name: string, val: Value)

  /** The argument vector the tool is started with; `-d device` is added when a
      device was given (main.py:45-48, 77-80, 92-95). */
  function Argv(device: string, cmd: Command): (argv: seq<string>)
    ensures |argv| == (if device != "" then 2 else 0) + (if cmd.ListCtrls? then 1 else 2)
    ensures device != "" ==> argv[0] == "-d" && argv[1] == device
    ensures argv[|argv| - (if cmd.ListCtrls? then 1 else 2)] ==
      match cmd
      case ListCtrls => "-l"
      case GetCtrl(_) => "--get-ctrl"
      case SetCtrl(_, _) => "--set-ctrl"
    ensures cmd.GetCtrl? ==> argv[|argv| - 1] == cmd.name
  {
    (if device != "" then ["-d", device] else [])
    + match cmd
      case ListCtrls => ["-l"]
      case GetCtrl(n) => ["--get-ctrl", n]
      case SetCtrl(n, v) => ["--set-ctrl", n + "=" + ValueText(v)]
  }

  /** The set command's argument splits back at its first `=` into the control
      name and the value text, since a listed name is a word. */
  lemma SetArgumentSplits(device: string, name: string, v: Value)
    requires AllIn(name, Word)
    ensures var argv := Argv(device, SetCtrl(name, v));
      && |argv| == (if device != "" then 4 else 2)
      && argv[|argv| - 2] == "--set-ctrl"
      && var arg := argv[|argv| - 1];
         |name| < |arg| && arg[..|name|] == name && arg[|name|] == '='
         && (forall k :: 0 <= k < |name| ==> arg[k] != '=')
         && arg[|name| + 1..] == ValueText(v)
  {
    var arg := name + "=" + ValueText(v);
    assert forall k :: 0 <= k < |name| ==> arg[k] == name[k] && IsWordChar(name[k]);
    assert arg[..|name|] == name;
    assert arg[|name| + 1..] == ValueText(v);
  }

  /** The table and the commands issued so far. */
  datatype Cam = Cam(ctrls: map<string, Control>, log: seq<Command>)

  /** setValue (main.py:88-100): an inactive control is reported set without a
      command; otherwise one set command is issued and the value is stored
      only if the command succeeded. No other control changes. */
  function Set(cam: Cam, name: string, val: Value, succeeded: bool): (r: (Cam, bool))
    requires name in cam.ctrls
    ensures r.0.ctrls.Keys == cam.ctrls.Keys
    ensures forall n :: n in cam.ctrls && n != name ==> r.0.ctrls[n] == cam.ctrls[n]
    ensures IsInactive(cam.ctrls[name]) ==> r == (cam, true)
    ensures !IsInactive(cam.ctrls[name]) ==>
      && r.0.log == cam.log + [SetCtrl(name, val)]
      && r.1 == succeeded
      && (succeeded ==> r.0.ctrls[name] == WithValue(cam.ctrls[name], val))
      && (!succeeded ==> r.0.ctrls[name] == cam.ctrls[name])
  {
    var c := cam.ctrls[name];
    if IsInactive(c) then (cam, true)
    else
      var log := cam.log + [SetCtrl(name, val)];
      if succeeded then (Cam(cam.ctrls[name := WithValue(c, val)], log), true)
      else (Cam(cam.ctrls, log), false)
  }

  // ---------------------------------------------------------------------
  // Reading a value back (main.py:81)

  /** `str.split()`: the maximal runs of non-whitespace characters. */
  function Tokens(s: string): (ts: seq<string>)
    ensures forall k :: 0 <= k < |ts| ==> |ts[k]| > 0 && AllIn(ts[k], NonSpace)
    decreases |s|
  {
    var b := RunEnd(s, 0, Space);
    if b == |s| then []
    else
      var e := RunEnd(s, b, NonSpace);
      [s[b..e]] + Tokens(s[e..])
  }

  /** The text rebuilt from its separators and tokens: seps[0], ts[0],
      seps[1], ..., ts[|ts| - 1], seps[|ts|]. */
  function Interleave(seps: seq<string>, ts: seq<string>): string
    requires |seps| == |ts| + 1
    decreases ts
  {
    if ts == [] then seps[0] else seps[0] + ts[0] + Interleave(seps[1..], ts[1..])
  }

  /** `s` is `ts` with whitespace around them: every separator is whitespace,
      those between two tokens are not empty and the whole rebuilds `s`. */
  predicate SplitsAs(s: string, seps: seq<string>, ts: seq<string>)
  {
    && |seps| == |ts| + 1
    && (forall i :: 0 <= i < |seps| ==> AllIn(seps[i], Space))
    && (forall i :: 0 < i < |ts| ==> |seps[i]| > 0)
    && Interleave(seps, ts) == s
  }

  /** Whitespace and a token in front of a split text make a split text. */
  lemma SplitsCons(s: string, b: nat, e: nat, seps: seq<string>, ts: seq<string>)
    requires b <= e <= |s| && AllIn(s[..b], Space)
    requires SplitsAs(s[e..], seps, ts) && (ts != [] ==> |seps[0]| > 0)
    ensures SplitsAs(s, [s[..b]] + seps, [s[b..e]] + ts)
  {
    var seps2 := [s[..b]] + seps;
    var ts2 := [s[b..e]] + ts;
    assert seps2[1..] == seps && ts2[1..] == ts;
    assert s[..b] + s[b..e] + s[e..] == s;
  }

  /** The tokens are what `str.split()` returns: together with whitespace
      separators they rebuild the text, and no two of them are adjacent. */
  lemma {:induction false} TokensSplit(s: string)
    ensures exists seps :: SplitsAs(s, seps, Tokens(s)) && seps[0] == s[..RunEnd(s, 0, Space)]
    decreases |s|
  {
    var b := RunEnd(s, 0, Space);
    if b == |s| {
      assert s[..b] == s;
      assert SplitsAs(s, [s], []);
    } else {
      var e := RunEnd(s, b, NonSpace);
      var rest := Tokens(s[e..]);
      TokensSplit(s[e..]);
      var seps :| SplitsAs(s[e..], seps, rest) && seps[0] == s[e..][..RunEnd(s[e..], 0, Space)];
      assert rest != [] ==> |seps[0]| > 0;
      SplitsCons(s, b, e, seps, rest);
      assert ([s[..b]] + seps)[0] == s[..b];
    }
  }

  /** `s.isdigit()` on a token. */
  predicate IsDigitToken(t: string) { |t| > 0 && AllDigits(t) }

  /** The first token made only of digits, read as a number. */
  function FirstDigits(ts: seq<string>): Option<nat>
  {
    if ts == [] then None
    else if IsDigitToken(ts[0]) then Some(NumeralValue(ts[0]))
    else FirstDigits(ts[1..])
  }

  /** `[int(s) for s in ret.split() if s.isdigit()][0]`, None where the list is empty. */
  function ReadValue(output: string): (r: Option<nat>)
    ensures var ts := Tokens(output);
      r.Some? <==> exists k :: 0 <= k < |ts| && IsDigitToken(ts[k])
  {
    FirstDigitsIsFirst(Tokens(output));
    FirstDigits(Tokens(output))
  }

  /** The reading exists iff some token is all digits; it is the first such token's number. */
  lemma {:induction false} FirstDigitsIsFirst(ts: seq<string>)
    ensures FirstDigits(ts).Some? <==> exists k :: 0 <= k < |ts| && IsDigitToken(ts[k])
    ensures FirstDigits(ts).Some? ==>
      exists k :: 0 <= k < |ts| && IsDigitToken(ts[k]) && FirstDigits(ts).value == NumeralValue(ts[k])
        && forall j :: 0 <= j < k ==> !IsDigitToken(ts[j])
  {
    if ts != [] {
      FirstDigitsIsFirst(ts[1..]);
      assert forall k :: 1 <= k < |ts| ==> ts[k] == ts[1..][k - 1];
      if !IsDigitToken(ts[0]) && FirstDigits(ts).Some? {
        var k :| 0 <= k < |ts[1..]| && IsDigitToken(ts[1..][k]) && FirstDigits(ts[1..]).value == NumeralValue(ts[1..][k])
          && forall j :: 0 <= j < k ==> !IsDigitToken(ts[1..][j]);
        assert forall j :: 0 <= j < k + 1 ==> !IsDigitToken(ts[j]);
      }
      if IsDigitToken(ts[0]) {
        assert exists k :: 0 <= k < |ts| && IsDigitToken(ts[k]);
      }
    }
  }

  /** A text made of one token splits into that token alone. */
  lemma OneToken(pre: string, t: string)
    requires AllIn(pre, Space) && |t| > 0 && AllIn(t, NonSpace)
    ensures Tokens(pre + t) == [t]
  {
    var s := pre + t;
    assert s[..|pre|] == pre && s[|pre|..] == t;
    assert s[|pre|] == t[0];
    RunEndOver(s, 0, pre, Space);
    RunEndOver(s, |pre|, t, NonSpace);
    assert s[|s|..] == [];
  }

  /** `name: value`, the line the device tool prints for --get-ctrl, splits into
      the name with its colon and the value text. */
  lemma GetOutputTokens(name: string, text: string)
    requires AllIn(name, NonSpace) && |text| > 0 && AllIn(text, NonSpace)
    ensures Tokens(name + ": " + text) == [name + ":", text]
  {
    var s := name + ": " + text;
    var w := name + ":";
    assert s == w + (" " + text);
    assert s[..|w|] == w && s[|w|..] == " " + text;
    assert AllIn(w, NonSpace);
    assert s[0] == w[0];
    RunEndOver(s, 0, [], Space);
    RunEndOver(s, 0, w, NonSpace);
    OneToken(" ", text);
  }

  /** The device tool's reply `name: 42` reads as 42. */
  lemma ReadsPrintedValue(name: string, n: nat)
    requires AllIn(name, NonSpace)
    ensures ReadValue(name + ": " + NatText(n)) == Some(n)
  {
    var w := name + ":";
    assert w[|w| - 1] == ':';
    assert AllIn(NatText(n), NonSpace);
    GetOutputTokens(name, NatText(n));
    NatTextValue(n);
    assert !IsDigitToken(w) && IsDigitToken(NatText(n));
    assert [w, NatText(n)][1..] == [NatText(n)];
    assert FirstDigits([w, NatText(n)]) == FirstDigits([NatText(n)]);
  }

  /** A negative reading is never recognised: `name: -5` reads as nothing. */
  lemma NegativeReadingIgnored(name: string, n: nat)
    requires AllIn(name, NonSpace)
    ensures ReadValue(name + ": -" + NatText(n)) == None
  {
    var w := name + ":";
    var t := "-" + NatText(n);
    assert name + ": -" + NatText(n) == name + ": " + t;
    assert w[|w| - 1] == ':';
    assert AllIn(t, NonSpace);
    GetOutputTokens(name, t);
    assert !IsDigitToken(w) && !IsDigitToken(t);
    assert [w, t][1..] == [t];
    assert FirstDigits([w, t]) == FirstDigits([t]);
    assert [t][1..] == [];
    assert FirstDigits([t]) == FirstDigits([]);
  }
}
