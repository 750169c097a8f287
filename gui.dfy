/** The decision rules of the Window (main.py:123-265) that do not depend on
    the widget toolkit: the label text of a control, the configuration file
    name, the ON/OFF toggle of a boolean control and the way sync re-reads
    the table into the button states and the disabled flags. */
module Gui {
  import opened Values
  import opened ControlListing
  import opened Commands
  import opened UpdateOrder
  import opened Camera

  // ---------------------------------------------------------------------
  // Label text (main.py:144-145)

  /** `str.replace(pat, rep)`: every occurrence, left to right, not overlapping. */
  function ReplaceAll(s: string, pat: string, rep: string): string
    requires |pat| > 0
    decreases |s|
  {
    if |s| < |pat| then s
    else if s[..|pat|] == pat then rep + ReplaceAll(s[|pat|..], pat, rep)
    else [s[0]] + ReplaceAll(s[1..], pat, rep)
  }

  function ToUpper(c: char): char { if IsLower(c) then (c as int - 32) as char else c }
  function ToLower(c: char): char { if IsUpper(c) then (c as int + 32) as char else c }

  /** `str.capitalize()` on ASCII letters: the first character upper case, the others lower case. */
  function Capitalize(s: string): (r: string)
    ensures |r| == |s|
    ensures |s| > 0 ==> r[0] == ToUpper(s[0])
    ensures forall k :: 0 < k < |s| ==> r[k] == ToLower(s[k])
  {
    if s == [] then [] else [ToUpper(s[0])] + seq(|s| - 1, k requires 0 <= k < |s| - 1 => ToLower(s[k + 1]))
  }

  const LONG_NAME := "White balance temperature"
  const SHORT_NAME := "WB temperature"

  /** The label of a control (main.py:144-145). */
  function LabelText(name: string): string
  {
    ReplaceAll(Capitalize(ReplaceAll(name, "_", " ")) + ":", LONG_NAME, SHORT_NAME)
  }

  /** Replacing `_` by a space changes each underscore and nothing else. */
  lemma {:induction false} ReplaceUnderscore(s: string)
    ensures var r := ReplaceAll(s, "_", " ");
      |r| == |s| && forall k :: 0 <= k < |s| ==> r[k] == if s[k] == '_' then ' ' else s[k]
    decreases |s|
  {
    if |s| > 0 {
      ReplaceUnderscore(s[1..]);
      assert s[..1] == [s[0]];
    }
  }

  /** A text that does not hold the first character of `pat` is left as it is. */
  lemma {:induction false} ReplaceAbsent(s: string, pat: string, rep: string)
    requires |pat| > 0 && forall k :: 0 <= k < |s| ==> s[k] != pat[0]
    ensures ReplaceAll(s, pat, rep) == s
    decreases |s|
  {
    if |s| >= |pat| {
      assert s[..|pat|][0] == s[0];
      ReplaceAbsent(s[1..], pat, rep);
    }
  }

  /** The label is the name with underscores as spaces, capitalized, with a
      colon; a leading "White balance temperature" is shortened to
      "WB temperature". The rest of a label has only lower-case letters, so
      no later occurrence is possible. */
  lemma LabelTextShape(name: string)
    ensures var cap := Capitalize(ReplaceAll(name, "_", " "));
      LabelText(name) ==
        if |cap| >= |LONG_NAME| && cap[..|LONG_NAME|] == LONG_NAME then SHORT_NAME + cap[|LONG_NAME|..] + ":"
        else cap + ":"
  {
    var cap := Capitalize(ReplaceAll(name, "_", " "));
    var s := cap + ":";
    var n := |LONG_NAME|;
    assert forall k :: 1 <= k < |s| ==> s[k] != 'W';
    if |cap| >= n && cap[..n] == LONG_NAME {
      assert s[..n] == LONG_NAME && s[n..] == cap[n..] + ":";
      ReplaceAbsent(s[n..], LONG_NAME, SHORT_NAME);
    } else if |s| >= n {
      assert s[..n] != LONG_NAME by {
        if |cap| == n - 1 {
          assert s[n - 1] != LONG_NAME[n - 1];
        } else {
          assert s[..n] == cap[..n];
        }
      }
      ReplaceAbsent(s[1..], LONG_NAME, SHORT_NAME);
      assert [s[0]] + s[1..] == s;
    }
  }

  /** Every label ends with a colon and contains no underscore. */
  lemma LabelTextFacts(name: string)
    ensures var t := LabelText(name);
      |t| > 0 && t[|t| - 1] == ':' && forall k :: 0 <= k < |t| ==> t[k] != '_'
  {
    LabelTextShape(name);
    ReplaceUnderscore(name);
    var cap := Capitalize(ReplaceAll(name, "_", " "));
    assert forall k :: 0 <= k < |cap| ==> cap[k] != '_';
  }

  // ---------------------------------------------------------------------
  // The configuration file name (main.py:252-254)

  const SUFFIX := ".ccconf"

  predicate EndsWith(s: string, suffix: string)
  {
    |s| >= |suffix| && s[|s| - |suffix|..] == suffix
  }

  /** The file a save writes to: none when the dialog gave no name, the name
      with `.ccconf` appended unless it already ends with it. */
  function SaveTarget(fileName: string): (r: Option<string>)
    ensures r.None? <==> fileName == ""
    ensures r.Some? ==> EndsWith(r.value, SUFFIX) && |fileName| <= |r.value| && r.value[..|fileName|] == fileName
  {
    if fileName == "" then None
    else if EndsWith(fileName, SUFFIX) then Some(fileName)
    else Some(fileName + SUFFIX)
  }

  /** The saved file name always ends in `.ccconf` and starts with the name
      chosen; it is the name itself iff that ends in `.ccconf`; applying the
      rule again changes nothing. */
  lemma SaveTargetFacts(fileName: string)
    ensures SaveTarget(fileName).Some? <==> fileName != ""
    ensures SaveTarget(fileName).Some? ==>
      var f := SaveTarget(fileName).value;
      && EndsWith(f, SUFFIX)
      && |fileName| <= |f| && f[..|fileName|] == fileName
      && (f == fileName <==> EndsWith(fileName, SUFFIX))
      && SaveTarget(f) == Some(f)
  {
    if fileName != "" && !EndsWith(fileName, SUFFIX) {
      var f := fileName + SUFFIX;
      assert f[|f| - |SUFFIX|..] == SUFFIX;
      assert f[..|fileName|] == fileName;
    }
  }

  // ---------------------------------------------------------------------
  // Buttons and sync

  /** Python truthiness of an attribute value (`if c["value"]:`). */
  predicate IsOn(v: Value)
  {
    match v
    case IntV(i) => i != 0
    case StrV(s) => s != ""
  }

  /** The value button_Change sends: the text "0" to switch off, "1" to switch on. */
  function ToggleValue(wasOn: bool): (v: Value)
    ensures v.StrV? && IsOn(v)
  {
    if wasOn then StrV("0") else StrV("1")
  }

  /** The toggle's text value goes to the device as the integer would, and a
      later listing reads it back as that integer. */
  lemma ToggleValueText(device: string, name: string, wasOn: bool)
    ensures var bit := if wasOn then 0 else 1;
      && Argv(device, SetCtrl(name, ToggleValue(wasOn))) == Argv(device, SetCtrl(name, IntV(bit)))
      && ToValue(ValueText(ToggleValue(wasOn))) == IntV(bit)
  {
    var bit := if wasOn then 0 else 1;
    assert ValueText(ToggleValue(wasOn)) == IntText(bit);
    IntTextRoundTrip(bit);
  }

  /** The per-control loop of sync (main.py:207-224) over `names`: a boolean
      control's button shows whether its value is truthy, any other control is
      disabled iff it is flagged inactive. A control without a stored value,
      or without the widget its type calls for, raises KeyError and ends the
      loop (`completed` false). */
  function Refresh(names: seq<string>, m: map<string, Control>, status: map<string, bool>, disabled: map<string, bool>):
    (r: (map<string, bool>, map<string, bool>, bool))
    requires Known(names, m)
    ensures r.0.Keys == status.Keys && r.1.Keys == disabled.Keys
    decreases |names|
  {
    if names == [] then (status, disabled, true)
    else
      var n := names[0];
      var c := m[n];
      if "value" !in c.attrs then (status, disabled, false)
      else if c.typ == "bool" then
        if n !in status then (status, disabled, false)
        else Refresh(names[1..], m, status[n := IsOn(c.attrs["value"])], disabled)
      else if n !in disabled then (status, disabled, false)
      else Refresh(names[1..], m, status, disabled[n := IsInactive(c)])
  }

  /** The widget a control of this type has: a button for `bool`, a slider otherwise. */
  predicate HasWidget(n: string, c: Control, status: map<string, bool>, disabled: map<string, bool>)
  {
    if c.typ == "bool" then n in status else n in disabled
  }

  /** sync runs to its end iff every control has a value and its widget; then
      every button shows its control's truthiness and every other control is
      disabled iff it is flagged inactive, and nothing else changes. */
  lemma {:induction false} RefreshRule(names: seq<string>, m: map<string, Control>, status: map<string, bool>, disabled: map<string, bool>)
    requires Known(names, m)
    ensures var r := Refresh(names, m, status, disabled);
      && (r.2 <==> forall n :: n in names ==> "value" in m[n].attrs && HasWidget(n, m[n], status, disabled))
      && (r.2 ==> forall n :: n in names ==>
            if m[n].typ == "bool" then r.0[n] == IsOn(m[n].attrs["value"]) else r.1[n] == IsInactive(m[n]))
      && (forall n :: n in status && n !in names ==> r.0[n] == status[n])
      && (forall n :: n in disabled && n !in names ==> r.1[n] == disabled[n])
    decreases |names|
  {
    if names != [] {
      var n := names[0];
      var c := m[n];
      var rest := names[1..];
      assert forall x :: x in names <==> x == n || x in rest;
      assert Known(rest, m);
      if "value" in c.attrs && HasWidget(n, c, status, disabled) {
        if c.typ == "bool" {
          var st := status[n := IsOn(c.attrs["value"])];
          RefreshRule(rest, m, st, disabled);
          assert forall x :: x in m ==> (HasWidget(x, m[x], st, disabled) <==> HasWidget(x, m[x], status, disabled));
        } else {
          var dis := disabled[n := IsInactive(c)];
          RefreshRule(rest, m, status, dis);
          assert forall x :: x in m ==> (HasWidget(x, m[x], status, dis) <==> HasWidget(x, m[x], status, disabled));
        }
      }
    }
  }

  class Window {
    const cam: CameraControl
    /** `button_status`: the state of each boolean control's button. */
    var buttonStatus: map<string, bool>
    /** Whether each slider (and its label) is disabled. */
    var disabled: map<string, bool>

    /** The window over `cc` with the button states and disabled flags that
        building the widgets gave. */
    constructor (cc: CameraControl, status: map<string, bool>, dis: map<string, bool>)
      ensures cam == cc && buttonStatus == status && disabled == dis
    {
      cam := cc;
      buttonStatus := status;
      disabled := dis;
    }

    /** sync (main.py:205-224): re-reads the listing, then refreshes every
        control's widget in table order. `listing` is None where the listing
        command raised; the exception leaves sync before any widget changes. */
    method Sync(listing: Option<seq<string>>) returns (completed: bool)
      modifies this, cam
      ensures cam.Valid() && Table(cam.order, cam.ctrls) == Relisted(listing)
      ensures cam.log == old(cam.log) + [ListCtrls]
      ensures listing.None? ==> !completed && buttonStatus == old(buttonStatus) && disabled == old(disabled)
      ensures listing.Some? ==>
        (buttonStatus, disabled, completed) == Refresh(cam.order, cam.ctrls, old(buttonStatus), old(disabled))
    {
      var listed := cam.GetCtls(listing);
      if !listed {
        return false;
      }
      var i := 0;
      while i < |cam.order|
        invariant 0 <= i <= |cam.order| && Known(cam.order, cam.ctrls)
        invariant cam.Valid() && Table(cam.order, cam.ctrls) == Relisted(listing)
        invariant cam.log == old(cam.log) + [ListCtrls]
        invariant Refresh(cam.order[i..], cam.ctrls, buttonStatus, disabled)
          == Refresh(cam.order, cam.ctrls, old(buttonStatus), old(disabled))
      {
        var n := cam.order[i];
        assert cam.order[i..][0] == n && cam.order[i..][1..] == cam.order[i + 1..];
        var c := cam.ctrls[n];
        if "value" !in c.attrs {
          return false;
        }
        if c.typ == "bool" {
          if n !in buttonStatus {
            return false;
          }
          buttonStatus := buttonStatus[n := IsOn(c.attrs["value"])];
        } else {
          if n !in disabled {
            return false;
          }
          disabled := disabled[n := IsInactive(c)];
        }
        i := i + 1;
      }
      completed := true;
    }

    /** The toggle of button_Change (main.py:226-236): the button flips and
        the control is sent "0" when it was on, "1" when it was off. */
    method Toggle(name: string, succeeded: bool) returns (ok: bool)
      requires name in buttonStatus && cam.Valid() && name in cam.ctrls
      modifies this, cam
      ensures cam.Valid()
      ensures buttonStatus == old(buttonStatus)[name := !old(buttonStatus)[name]]
      ensures disabled == old(disabled) && cam.order == old(cam.order)
      ensures (cam.State(), ok) == Set(old(cam.State()), name, ToggleValue(old(buttonStatus)[name]), succeeded)
    {
      var wasOn := buttonStatus[name];
      buttonStatus := buttonStatus[name := !wasOn];
      ok := cam.SetValue(name, ToggleValue(wasOn), succeeded);
    }

    /** button_Change (main.py:226-238): the toggle, then a sync against the
        listing the device tool prints afterwards. */
    method ButtonChange(name: string, succeeded: bool, listing: Option<seq<string>>) returns (completed: bool)
      requires name in buttonStatus && cam.Valid() && name in cam.ctrls
      modifies this, cam
      ensures cam.Valid() && Table(cam.order, cam.ctrls) == Relisted(listing)
      ensures var toggled := Set(old(cam.State()), name, ToggleValue(old(buttonStatus)[name]), succeeded).0;
        cam.log == toggled.log + [ListCtrls]
      ensures var toggled := old(buttonStatus)[name := !old(buttonStatus)[name]];
        if listing.Some? then
          (buttonStatus, disabled, completed) == Refresh(cam.order, cam.ctrls, toggled, old(disabled))
        else !completed && buttonStatus == toggled && disabled == old(disabled)
    {
      var _ := Toggle(name, succeeded);
      completed := Sync(listing);
    }
  }
}
