/** CameraControl.update (main.py:102-120) on a value of the table: two
    passes over the controls in table order, the first leaving out `int`
    controls and the second leaving out `bool` and `menu` controls (a
    boolean or menu setting may change which other controls are active),
    each calling setValue with the control's default (reset) or its stored
    value. The device's answer to the k-th command of the log is
    `accepts(k)`. Reading an attribute a control lacks raises KeyError and
    ends the update; such a run is not `completed`. */
module UpdateOrder {
  import opened Values
  import opened ControlListing
  import opened Commands

  /** The first pass (everything but `int`) and the second (everything but `bool`/`menu`). */
  datatype Sweep = FirstPass | SecondPass

  /** The controls a pass leaves out (main.py:106, 114). */
  predicate Skips(p: Sweep, typ: string)
  {
    match p
    case FirstPass => typ == "int"
    case SecondPass => typ == "bool" || typ == "menu"
  }

  /** The attribute sent: the default on reset, the stored value otherwise (main.py:108-111, 116-119). */
  function Key(reset: bool): string
  {
    if reset then "default" else "value"
  }

  /** The state after a pass or an update, and whether it ran to its end. */
  datatype Run = Run(cam: Cam, completed: bool)

  predicate Known(names: seq<string>, ctrls: map<string, Control>)
  {
    forall n :: n in names ==> n in ctrls
  }

  /** One pass of update over `names`. */
  function Pass(names: seq<string>, cam: Cam, p: Sweep, reset: bool, accepts: nat -> bool): (r: Run)
    requires Known(names, cam.ctrls)
    ensures r.cam.ctrls.Keys == cam.ctrls.Keys
    ensures cam.log <= r.cam.log
    decreases |names|
  {
    if names == [] then Run(cam, true)
    else
      var c := cam.ctrls[names[0]];
      if Skips(p, c.typ) then Pass(names[1..], cam, p, reset, accepts)
      else if Key(reset) !in c.attrs then Run(cam, false)
      else Pass(names[1..], Set(cam, names[0], c.attrs[Key(reset)], accepts(|cam.log|)).0, p, reset, accepts)
  }

  /** update(reset): the first pass, then, if it ran to its end, the second. */
  function UpdateRun(order: seq<string>, cam: Cam, reset: bool, accepts: nat -> bool): (r: Run)
    requires Known(order, cam.ctrls)
    ensures r.cam.ctrls.Keys == cam.ctrls.Keys
    ensures cam.log <= r.cam.log
  {
    var first := Pass(order, cam, FirstPass, reset, accepts);
    if !first.completed then first
    else Pass(order, first.cam, SecondPass, reset, accepts)
  }

  // ---------------------------------------------------------------------
  // Reference definitions

  /** Control n is sent a command in pass p: the pass keeps its type and it is active. */
  predicate InPass(p: Sweep, m: map<string, Control>, n: string)
  {
    n in m && !Skips(p, m[n].typ) && !IsInactive(m[n])
  }

  /** The names of `names` that pass p sends a command to, in order. */
  function Attempted(names: seq<string>, m: map<string, Control>, p: Sweep): (r: seq<string>)
    ensures forall n :: n in r ==> n in names && InPass(p, m, n)
  {
    if names == [] then []
    else (if InPass(p, m, names[0]) then [names[0]] else []) + Attempted(names[1..], m, p)
  }

  /** One set command per name, sending that control's attribute `key`. */
  function Sends(names: seq<string>, m: map<string, Control>, key: string): (cmds: seq<Command>)
    requires forall n :: n in names ==> n in m && key in m[n].attrs
  {
    seq(|names|, k requires 0 <= k < |names| => SetCtrl(names[k], m[names[k]].attrs[key]))
  }

  /** What a pass may change in a control: on reset only the stored value,
      otherwise nothing at all. */
  ghost predicate Agree(c0: Control, c: Control, reset: bool)
  {
    if reset then
      && c.typ == c0.typ
      && (forall a :: a != "value" ==> (a in c.attrs <==> a in c0.attrs))
      && (forall a :: a != "value" && a in c0.attrs ==> c.attrs[a] == c0.attrs[a])
    else c == c0
  }

  ghost predicate Keeps(m0: map<string, Control>, m: map<string, Control>, reset: bool)
  {
    m.Keys == m0.Keys && forall n :: n in m0 ==> Agree(m0[n], m[n], reset)
  }

  lemma AgreeFacts(c0: Control, c: Control, reset: bool)
    requires Agree(c0, c, reset)
    ensures c.typ == c0.typ && IsInactive(c) == IsInactive(c0)
    ensures Key(reset) in c.attrs <==> Key(reset) in c0.attrs
    ensures Key(reset) in c0.attrs ==> c.attrs[Key(reset)] == c0.attrs[Key(reset)]
  {
    if reset {
      assert "flags" in c.attrs <==> "flags" in c0.attrs;
      assert "default" in c.attrs <==> "default" in c0.attrs;
    }
  }

  lemma KeepsRefl(m: map<string, Control>, reset: bool)
    ensures Keeps(m, m, reset)
  {
  }

  /** Sending a control's own attribute `Key(reset)` keeps the table in agreement. */
  lemma SetKeeps(cam: Cam, name: string, reset: bool, ok: bool, m0: map<string, Control>)
    requires name in cam.ctrls && Key(reset) in cam.ctrls[name].attrs && Keeps(m0, cam.ctrls, reset)
    ensures Keeps(m0, Set(cam, name, cam.ctrls[name].attrs[Key(reset)], ok).0.ctrls, reset)
  {
    var c := cam.ctrls[name];
    var next := Set(cam, name, c.attrs[Key(reset)], ok).0;
    if !reset {
      assert c.attrs["value" := c.attrs["value"]] == c.attrs;
      assert WithValue(c, c.attrs["value"]) == c;
    } else if !IsInactive(c) && ok {
      var d := next.ctrls[name];
      assert forall a :: a != "value" ==> (a in d.attrs <==> a in c.attrs);
    }
  }

  lemma SendsCons(name: string, att: seq<string>, m: map<string, Control>, key: string)
    requires name in m && key in m[name].attrs
    requires forall n :: n in att ==> n in m && key in m[n].attrs
    ensures Sends([name] + att, m, key) == [SetCtrl(name, m[name].attrs[key])] + Sends(att, m, key)
  {
  }

  lemma AttemptedSkip(names: seq<string>, m: map<string, Control>, p: Sweep)
    requires names != [] && !InPass(p, m, names[0])
    ensures Attempted(names, m, p) == Attempted(names[1..], m, p)
  {
  }

  // ---------------------------------------------------------------------
  // One pass

  /** The first step of a pass that sends a command: the state after it. */
  function StepSet(cam: Cam, name: string, reset: bool, accepts: nat -> bool): Cam
    requires name in cam.ctrls && Key(reset) in cam.ctrls[name].attrs
  {
    Set(cam, name, cam.ctrls[name].attrs[Key(reset)], accepts(|cam.log|)).0
  }

  /** How a nonempty pass unfolds. */
  lemma PassUnfold(names: seq<string>, cam: Cam, p: Sweep, reset: bool, accepts: nat -> bool)
    requires names != [] && Known(names, cam.ctrls)
    ensures Known(names[1..], cam.ctrls)
    ensures var c := cam.ctrls[names[0]];
      Pass(names, cam, p, reset, accepts) ==
        if Skips(p, c.typ) then Pass(names[1..], cam, p, reset, accepts)
        else if Key(reset) !in c.attrs then Run(cam, false)
        else Pass(names[1..], StepSet(cam, names[0], reset, accepts), p, reset, accepts)
  {
  }

  /** A pass keeps the table in agreement with where it started and sends
      commands only to the controls it keeps that are active. */
  lemma {:induction false} PassKeeps(names: seq<string>, cam: Cam, p: Sweep, reset: bool, accepts: nat -> bool, m0: map<string, Control>)
    requires Known(names, cam.ctrls) && Keeps(m0, cam.ctrls, reset)
    ensures var r := Pass(names, cam, p, reset, accepts);
      && Keeps(m0, r.cam.ctrls, reset)
      && (forall k :: |cam.log| <= k < |r.cam.log| ==> r.cam.log[k].SetCtrl? && InPass(p, m0, r.cam.log[k].name))
    decreases |names|
  {
    if names != [] {
      var name := names[0];
      var c := cam.ctrls[name];
      PassUnfold(names, cam, p, reset, accepts);
      AgreeFacts(m0[name], c, reset);
      if Skips(p, c.typ) {
        PassKeeps(names[1..], cam, p, reset, accepts, m0);
      } else if Key(reset) in c.attrs {
        var next := StepSet(cam, name, reset, accepts);
        SetKeeps(cam, name, reset, accepts(|cam.log|), m0);
        PassKeeps(names[1..], next, p, reset, accepts, m0);
        assert forall k :: |cam.log| <= k < |next.log| ==> next.log[k] == SetCtrl(name, c.attrs[Key(reset)]);
      }
    }
  }

  /** A pass runs to its end iff every control it keeps has the attribute it sends. */
  lemma {:induction false} PassCompletes(names: seq<string>, cam: Cam, p: Sweep, reset: bool, accepts: nat -> bool, m0: map<string, Control>)
    requires Known(names, cam.ctrls) && Keeps(m0, cam.ctrls, reset)
    ensures Pass(names, cam, p, reset, accepts).completed <==>
      forall n :: n in names && !Skips(p, m0[n].typ) ==> Key(reset) in m0[n].attrs
    decreases |names|
  {
    if names != [] {
      var name := names[0];
      var c := cam.ctrls[name];
      assert forall n :: n in names <==> n == name || n in names[1..];
      PassUnfold(names, cam, p, reset, accepts);
      AgreeFacts(m0[name], c, reset);
      if Skips(p, c.typ) {
        PassCompletes(names[1..], cam, p, reset, accepts, m0);
      } else if Key(reset) in c.attrs {
        SetKeeps(cam, name, reset, accepts(|cam.log|), m0);
        PassCompletes(names[1..], StepSet(cam, name, reset, accepts), p, reset, accepts, m0);
      }
    }
  }

  /** A pass that runs to its end sends exactly one command per control it
      keeps that is active, in table order, each with the attribute sent. */
  lemma {:induction false} PassLog(names: seq<string>, cam: Cam, p: Sweep, reset: bool, accepts: nat -> bool, m0: map<string, Control>)
    requires Known(names, cam.ctrls) && Keeps(m0, cam.ctrls, reset)
    ensures var r := Pass(names, cam, p, reset, accepts);
      r.completed ==>
        && (forall n :: n in Attempted(names, m0, p) ==> n in m0 && Key(reset) in m0[n].attrs)
        && r.cam.log == cam.log + Sends(Attempted(names, m0, p), m0, Key(reset))
    decreases |names|
  {
    if names != [] {
      var name := names[0];
      var c := cam.ctrls[name];
      var rest := names[1..];
      PassUnfold(names, cam, p, reset, accepts);
      AgreeFacts(m0[name], c, reset);
      if Skips(p, c.typ) {
        PassLog(rest, cam, p, reset, accepts, m0);
        AttemptedSkip(names, m0, p);
      } else if Key(reset) in c.attrs {
        var val := c.attrs[Key(reset)];
        var next := StepSet(cam, name, reset, accepts);
        SetKeeps(cam, name, reset, accepts(|cam.log|), m0);
        PassLog(rest, next, p, reset, accepts, m0);
        if IsInactive(c) {
          AttemptedSkip(names, m0, p);
        } else if Pass(rest, next, p, reset, accepts).completed {
          var att := Attempted(rest, m0, p);
          assert Attempted(names, m0, p) == [name] + att;
          SendsCons(name, att, m0, Key(reset));
          assert next.log == cam.log + [SetCtrl(name, val)];
        }
      }
    }
  }

  /** All that a pass does, gathered. */
  lemma PassFacts(names: seq<string>, cam: Cam, p: Sweep, reset: bool, accepts: nat -> bool, m0: map<string, Control>)
    requires Known(names, cam.ctrls) && Keeps(m0, cam.ctrls, reset)
    ensures var r := Pass(names, cam, p, reset, accepts);
      && Keeps(m0, r.cam.ctrls, reset)
      && (forall k :: |cam.log| <= k < |r.cam.log| ==> r.cam.log[k].SetCtrl? && InPass(p, m0, r.cam.log[k].name))
      && (r.completed <==> forall n :: n in names && !Skips(p, m0[n].typ) ==> Key(reset) in m0[n].attrs)
      && (r.completed ==> r.cam.log == cam.log + Sends(Attempted(names, m0, p), m0, Key(reset)))
  {
    PassKeeps(names, cam, p, reset, accepts, m0);
    PassCompletes(names, cam, p, reset, accepts, m0);
    PassLog(names, cam, p, reset, accepts, m0);
  }

  // ---------------------------------------------------------------------
  // The update

  /** The type of the control a command is for. */
  ghost function SentType(m: map<string, Control>, cmd: Command): string
  {
    if cmd.SetCtrl? && cmd.name in m then m[cmd.name].typ else ""
  }

  /** No command for an `int` control precedes a command for a `bool` or
      `menu` control, whether or not the update ran to its end. */
  lemma UpdateOrdering(order: seq<string>, cam: Cam, reset: bool, accepts: nat -> bool)
    requires Known(order, cam.ctrls)
    ensures var r := UpdateRun(order, cam, reset, accepts);
      forall i, j :: |cam.log| <= i < j < |r.cam.log| && SentType(cam.ctrls, r.cam.log[i]) == "int" ==>
        !Skips(SecondPass, SentType(cam.ctrls, r.cam.log[j]))
  {
    var m0 := cam.ctrls;
    KeepsRefl(m0, reset);
    PassFacts(order, cam, FirstPass, reset, accepts, m0);
    var first := Pass(order, cam, FirstPass, reset, accepts);
    if first.completed {
      PassFacts(order, first.cam, SecondPass, reset, accepts, m0);
      var r := UpdateRun(order, cam, reset, accepts);
      assert forall k :: |cam.log| <= k < |first.cam.log| ==> r.cam.log[k] == first.cam.log[k];
    }
  }

  /** An update runs to its end iff every control has the attribute sent, and
      then sends, pass after pass, one command per control the pass keeps
      that is active, each in table order and each with the attribute sent. */
  lemma UpdateCommands(order: seq<string>, cam: Cam, reset: bool, accepts: nat -> bool)
    requires Known(order, cam.ctrls)
    ensures var r := UpdateRun(order, cam, reset, accepts);
      && (r.completed <==> forall n :: n in order ==> Key(reset) in cam.ctrls[n].attrs)
      && (r.completed ==>
            r.cam.log == cam.log
              + Sends(Attempted(order, cam.ctrls, FirstPass), cam.ctrls, Key(reset))
              + Sends(Attempted(order, cam.ctrls, SecondPass), cam.ctrls, Key(reset)))
  {
    var m0 := cam.ctrls;
    KeepsRefl(m0, reset);
    PassFacts(order, cam, FirstPass, reset, accepts, m0);
    var first := Pass(order, cam, FirstPass, reset, accepts);
    if first.completed {
      PassFacts(order, first.cam, SecondPass, reset, accepts, m0);
    } else {
      var n :| n in order && !Skips(FirstPass, m0[n].typ) && Key(reset) !in m0[n].attrs;
    }
    forall n | n in order ensures !Skips(FirstPass, m0[n].typ) || !Skips(SecondPass, m0[n].typ) { }
  }

  /** The names of the set commands of a log, in order. */
  function SetTargets(cmds: seq<Command>): seq<string>
  {
    if cmds == [] then []
    else (if cmds[0].SetCtrl? then [cmds[0].name] else []) + SetTargets(cmds[1..])
  }

  lemma {:induction false} SetTargetsAppend(a: seq<Command>, b: seq<Command>)
    ensures SetTargets(a + b) == SetTargets(a) + SetTargets(b)
  {
    if a == [] {
      assert a + b == b;
    } else {
      assert (a + b)[0] == a[0];
      assert (a + b)[1..] == a[1..] + b;
      SetTargetsAppend(a[1..], b);
    }
  }

  lemma {:induction false} SetTargetsOfSends(names: seq<string>, m: map<string, Control>, key: string)
    requires forall n :: n in names ==> n in m && key in m[n].attrs
    ensures SetTargets(Sends(names, m, key)) == names
  {
    if names != [] {
      var s := Sends(names, m, key);
      assert s[1..] == Sends(names[1..], m, key);
      SetTargetsOfSends(names[1..], m, key);
    }
  }

  lemma {:induction false} AttemptedCount(names: seq<string>, m: map<string, Control>, p: Sweep, n: string)
    requires Distinct(names)
    ensures multiset(Attempted(names, m, p))[n] == if n in names && InPass(p, m, n) then 1 else 0
  {
    if names != [] {
      var rest := names[1..];
      assert Distinct(rest) by {
        forall i, j | 0 <= i < j < |rest| ensures rest[i] != rest[j] {
          assert rest[i] == names[i + 1] && rest[j] == names[j + 1];
        }
      }
      AttemptedCount(rest, m, p, n);
      assert names[0] !in rest by {
        forall k | 0 <= k < |rest| ensures rest[k] != names[0] {
          assert rest[k] == names[k + 1];
        }
      }
      assert n in names <==> n == names[0] || n in rest;
    }
  }

  lemma TwoPassTargets(d: seq<string>, c: seq<string>, m: map<string, Control>, key: string)
    requires forall n :: n in d ==> n in m && key in m[n].attrs
    requires forall n :: n in c ==> n in m && key in m[n].attrs
    ensures multiset(SetTargets(Sends(d, m, key) + Sends(c, m, key))) == multiset(d) + multiset(c)
  {
    SetTargetsAppend(Sends(d, m, key), Sends(c, m, key));
    SetTargetsOfSends(d, m, key);
    SetTargetsOfSends(c, m, key);
  }

  /** How many set commands a completed update sends a control: none when it is
      inactive, one for `bool`, `menu` and `int`, two for any other type. */
  function AttemptCount(c: Control): nat
  {
    if IsInactive(c) then 0
    else if Skips(FirstPass, c.typ) || Skips(SecondPass, c.typ) then 1
    else 2
  }

  /** Each active `bool`, `menu` and `int` control is attempted exactly once, any
      other active control twice, an inactive control never. */
  lemma UpdateAttemptCounts(order: seq<string>, cam: Cam, reset: bool, accepts: nat -> bool, n: string)
    requires Distinct(order) && Known(order, cam.ctrls) && n in order
    ensures var r := UpdateRun(order, cam, reset, accepts);
      r.completed ==> multiset(SetTargets(r.cam.log[|cam.log|..]))[n] == AttemptCount(cam.ctrls[n])
  {
    UpdateSent(order, cam, reset, accepts);
    if UpdateRun(order, cam, reset, accepts).completed {
      SentCounts(order, cam.ctrls, Key(reset), n);
    }
  }

  /** The commands a completed update adds to the log. */
  lemma UpdateSent(order: seq<string>, cam: Cam, reset: bool, accepts: nat -> bool)
    requires Known(order, cam.ctrls)
    ensures var r := UpdateRun(order, cam, reset, accepts);
      r.completed ==>
        && (forall x :: x in order ==> x in cam.ctrls && Key(reset) in cam.ctrls[x].attrs)
        && r.cam.log[|cam.log|..] ==
             Sends(Attempted(order, cam.ctrls, FirstPass), cam.ctrls, Key(reset))
             + Sends(Attempted(order, cam.ctrls, SecondPass), cam.ctrls, Key(reset))
  {
    UpdateCommands(order, cam, reset, accepts);
    var r := UpdateRun(order, cam, reset, accepts);
    if r.completed {
      var s1 := Sends(Attempted(order, cam.ctrls, FirstPass), cam.ctrls, Key(reset));
      var s2 := Sends(Attempted(order, cam.ctrls, SecondPass), cam.ctrls, Key(reset));
      SliceAfter(cam.log, s1, s2);
    }
  }

  lemma SliceAfter<T>(a: seq<T>, s1: seq<T>, s2: seq<T>)
    ensures (a + s1 + s2)[|a|..] == s1 + s2
  {
  }

  lemma SentCounts(order: seq<string>, m: map<string, Control>, key: string, n: string)
    requires Distinct(order) && n in order
    requires forall x :: x in order ==> x in m && key in m[x].attrs
    ensures multiset(SetTargets(Sends(Attempted(order, m, FirstPass), m, key)
      + Sends(Attempted(order, m, SecondPass), m, key)))[n] == AttemptCount(m[n])
  {
    var d := Attempted(order, m, FirstPass);
    var c := Attempted(order, m, SecondPass);
    TwoPassTargets(d, c, m, key);
    AttemptedCount(order, m, FirstPass, n);
    AttemptedCount(order, m, SecondPass, n);
  }

  /** update() writes back every stored value, so the table is unchanged,
      whether or not the update ran to its end. */
  lemma UpdateKeepsValues(order: seq<string>, cam: Cam, accepts: nat -> bool)
    requires Known(order, cam.ctrls)
    ensures UpdateRun(order, cam, false, accepts).cam.ctrls == cam.ctrls
  {
    var m0 := cam.ctrls;
    KeepsRefl(m0, false);
    PassFacts(order, cam, FirstPass, false, accepts, m0);
    var first := Pass(order, cam, FirstPass, false, accepts);
    if first.completed {
      PassFacts(order, first.cam, SecondPass, false, accepts, m0);
    }
    var r := UpdateRun(order, cam, false, accepts);
    assert Keeps(m0, r.cam.ctrls, false);
  }

  /** Some set command for n at log index `base` or later succeeded. */
  ghost predicate Succeeded(log: seq<Command>, base: nat, n: string, accepts: nat -> bool)
  {
    exists k :: base <= k < |log| && log[k].SetCtrl? && log[k].name == n && accepts(k)
  }

  /** A control after a reset: its default stored if a set command for it succeeded. */
  function ResetTo(c: Control, done: bool): Control
  {
    if done && "default" in c.attrs then WithValue(c, c.attrs["default"]) else c
  }

  lemma SucceededAppend(log: seq<Command>, base: nat, n: string, accepts: nat -> bool, cmd: Command)
    requires base <= |log|
    ensures Succeeded(log + [cmd], base, n, accepts) <==>
      Succeeded(log, base, n, accepts) || (cmd.SetCtrl? && cmd.name == n && accepts(|log|))
  {
    var l := log + [cmd];
    if Succeeded(l, base, n, accepts) {
      var k :| base <= k < |l| && l[k].SetCtrl? && l[k].name == n && accepts(k);
      if k < |log| {
        assert log[k] == l[k];
      }
    }
    if Succeeded(log, base, n, accepts) {
      var k :| base <= k < |log| && log[k].SetCtrl? && log[k].name == n && accepts(k);
      assert l[k] == log[k];
    }
    if cmd.SetCtrl? && cmd.name == n && accepts(|log|) {
      assert l[|log|] == cmd;
    }
  }

  lemma ResetTwice(c: Control, d: Value)
    ensures WithValue(WithValue(c, d), d) == WithValue(c, d)
  {
    assert c.attrs["value" := d]["value" := d] == c.attrs["value" := d];
  }

  lemma {:induction false} PassReset(names: seq<string>, cam: Cam, p: Sweep, accepts: nat -> bool, m0: map<string, Control>, base: nat)
    requires Known(names, cam.ctrls) && base <= |cam.log| && cam.ctrls.Keys == m0.Keys
    requires forall n :: n in m0 ==> cam.ctrls[n] == ResetTo(m0[n], Succeeded(cam.log, base, n, accepts))
    ensures var r := Pass(names, cam, p, true, accepts);
      forall n :: n in m0 ==> r.cam.ctrls[n] == ResetTo(m0[n], Succeeded(r.cam.log, base, n, accepts))
    decreases |names|
  {
    if names != [] {
      var name := names[0];
      var c := cam.ctrls[name];
      var rest := names[1..];
      assert Known(rest, cam.ctrls);
      if Skips(p, c.typ) {
        PassReset(rest, cam, p, accepts, m0, base);
      } else if "default" in c.attrs {
        var dflt := c.attrs["default"];
        var ok := accepts(|cam.log|);
        var next := Set(cam, name, dflt, ok).0;
        assert "default" in m0[name].attrs && m0[name].attrs["default"] == dflt;
        assert IsInactive(c) == IsInactive(m0[name]);
        if !IsInactive(c) {
          forall n | n in m0
            ensures next.ctrls[n] == ResetTo(m0[n], Succeeded(next.log, base, n, accepts))
          {
            SucceededAppend(cam.log, base, n, accepts, SetCtrl(name, dflt));
            if n == name && ok {
              ResetTwice(m0[name], dflt);
            }
          }
        }
        PassReset(rest, next, p, accepts, m0, base);
      }
    }
  }

  /** update(reset=True): a control whose set command succeeded holds its
      default with its other attributes as they were, any other control is
      unchanged; an inactive control is never touched. */
  lemma UpdateResetValues(order: seq<string>, cam: Cam, accepts: nat -> bool)
    requires Known(order, cam.ctrls)
    ensures var r := UpdateRun(order, cam, true, accepts);
      forall n :: n in cam.ctrls ==>
        && r.cam.ctrls[n] == ResetTo(cam.ctrls[n], Succeeded(r.cam.log, |cam.log|, n, accepts))
        && (IsInactive(cam.ctrls[n]) ==> r.cam.ctrls[n] == cam.ctrls[n])
  {
    var m0 := cam.ctrls;
    var base := |cam.log|;
    assert forall n :: n in m0 ==> !Succeeded(cam.log, base, n, accepts);
    PassReset(order, cam, FirstPass, accepts, m0, base);
    KeepsRefl(m0, true);
    PassFacts(order, cam, FirstPass, true, accepts, m0);
    var first := Pass(order, cam, FirstPass, true, accepts);
    var r := UpdateRun(order, cam, true, accepts);
    if first.completed {
      PassReset(order, first.cam, SecondPass, accepts, m0, base);
      PassFacts(order, first.cam, SecondPass, true, accepts, m0);
      assert forall k :: base <= k < |first.cam.log| ==> r.cam.log[k] == first.cam.log[k];
    }
    forall n | n in m0 && IsInactive(m0[n]) ensures !Succeeded(r.cam.log, base, n, accepts) {
      assert forall k :: base <= k < |r.cam.log| && r.cam.log[k].SetCtrl? ==> r.cam.log[k].name != n;
    }
  }
}
