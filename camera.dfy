/** The CameraControl object (main.py:28-120): the control table it fills
    from the device tool's listing, and the get, set and update operations
    that change it. The table is kept as an insertion order and a map, the
    commands issued as a log; what the device tool prints or whether it
    accepts a command comes in as a parameter. */
module Camera {
  import opened Values
  import opened ControlListing
  import opened Commands
  import opened UpdateOrder

  /** How the table grows by one line of the listing (main.py:49-67). */
  lemma ListingStep(lines: seq<string>, line: string)
    ensures Listing(lines + [line]) ==
      match MatchLine(line)
      case None => Listing(lines)
      case Some(m) => Put(Listing(lines), m.name, ControlOf(m))
  {
    assert (lines + [line])[..|lines|] == lines;
  }

  /** The table get_ctls leaves: the one the listing fills, or the empty table
      where the listing command raised, since the table is emptied before the
      command runs (main.py:44-48). */
  function Relisted(listing: Option<seq<string>>): (t: Table)
    ensures t.Valid()
    ensures listing.None? ==> t.order == [] && t.ctrls == map[]
  {
    if listing.Some? then Listing(listing.value) else Table([], map[])
  }

  /** The inner loop of get_ctls (main.py:57-66): each attribute searched
      for in turn and stored, converted, when found. */
  method LineAttrs(rest: string) returns (attrs: map<string, Value>)
    ensures attrs == Attrs(rest, ATTRS)
  {
    attrs := map[];
    var j := 0;
    while j < |ATTRS|
      invariant 0 <= j <= |ATTRS|
      invariant attrs == Attrs(rest, ATTRS[..j])
    {
      assert ATTRS[..j + 1][..j] == ATTRS[..j] && ATTRS[..j + 1][j] == ATTRS[j];
      match FindAttr(rest, ATTRS[j], 0) {
        case None =>
        case Some(v) =>
          attrs := attrs[ATTRS[j] := ToValue(v)];
      }
      j := j + 1;
    }
    assert ATTRS[..j] == ATTRS;
  }

  class CameraControl {
    /** The device given with `-d`, or "" for the tool's default device. */
    const device: string
    /** The keys of the control table in insertion order. */
    var order: seq<string>
    var ctrls: map<string, Control>
    /** Every command issued to the device tool, oldest first. */
    var log: seq<Command>

    ghost predicate Valid()
      reads this
    {
      Table(order, ctrls).Valid()
    }

    function State(): Cam
      reads this
    {
      Cam(ctrls, log)
    }

    /** `CameraControl(device)` (main.py:69-73): the table is the one the listing fills. */
    constructor (device: string, listing: seq<string>)
      ensures this.device == device && Valid()
      ensures Table(order, ctrls) == Listing(listing)
      ensures log == [ListCtrls]
    {
      this.device := device;
      order := [];
      ctrls := map[];
      log := [];
      new;
      var _ := GetCtls(Some(listing));
    }

    /** get_ctls (main.py:43-67): lists the controls and rebuilds the table,
        one line at a time, each matching line's attributes one at a time.
        `result` is the lines the device tool printed, None where running it
        raised; `ok` is false where that exception leaves get_ctls. */
    method GetCtls(result: Option<seq<string>>) returns (ok: bool)
      modifies this
      ensures ok == result.Some?
      ensures Valid() && Table(order, ctrls) == Relisted(result)
      ensures log == old(log) + [ListCtrls]
    {
      order := [];
      ctrls := map[];
      log := log + [ListCtrls];
      if result.None? {
        return false;
      }
      var listing := result.value;
      var i := 0;
      while i < |listing|
        invariant 0 <= i <= |listing|
        invariant Table(order, ctrls) == Listing(listing[..i])
        invariant log == old(log) + [ListCtrls]
      {
        var line := listing[i];
        ListingStep(listing[..i], line);
        assert listing[..i + 1] == listing[..i] + [line];
        match MatchLine(line) {
          case None =>
          case Some(m) =>
            var attrs := LineAttrs(m.rest);
            if m.name !in ctrls {
              order := order + [m.name];
            }
            ctrls := ctrls[m.name := Control(m.typ, attrs)];
        }
        i := i + 1;
      }
      assert listing[..i] == listing;
      ok := true;
    }

    /** getValue (main.py:75-86). `output` is what the get command printed,
        None where running it raised. The first all-digit token of the output
        is stored and returned; where there is none, or the name is not in the
        table, 0 is returned and the table is unchanged. */
    method GetValue(name: string, output: Option<string>) returns (r: int)
      requires Valid()
      modifies this
      ensures Valid()
      ensures log == old(log) + [GetCtrl(name)]
      ensures order == old(order)
      ensures var v := if output.Some? then ReadValue(output.value) else None;
        if v.Some? && name in old(ctrls) then
          r == v.value && ctrls == old(ctrls)[name := WithValue(old(ctrls)[name], IntV(v.value))]
        else r == 0 && ctrls == old(ctrls)
    {
      log := log + [GetCtrl(name)];
      if output.None? {
        return 0;
      }
      var v := ReadValue(output.value);
      if v.None? || name !in ctrls {
        return 0;
      }
      ctrls := ctrls[name := WithValue(ctrls[name], IntV(v.value))];
      r := v.value;
    }

    /** setValue (main.py:88-100): `succeeded` is whether the device tool
        accepted the set command. */
    method SetValue(name: string, val: Value, succeeded: bool) returns (ok: bool)
      requires Valid() && name in ctrls
      modifies this
      ensures Valid()
      ensures (State(), ok) == Set(old(State()), name, val, succeeded)
      ensures order == old(order)
    {
      if IsInactive(ctrls[name]) {
        return true;
      }
      log := log + [SetCtrl(name, val)];
      if !succeeded {
        return false;
      }
      ctrls := ctrls[name := WithValue(ctrls[name], val)];
      ok := true;
    }

    /** One of update's two loops (main.py:105-112 or 113-120). */
    method RunPass(p: Sweep, reset: bool, accepts: nat -> bool) returns (completed: bool)
      requires Valid()
      modifies this
      ensures Valid() && order == old(order)
      ensures Run(State(), completed) == Pass(order, old(State()), p, reset, accepts)
    {
      var i := 0;
      while i < |order|
        invariant 0 <= i <= |order| && order == old(order)
        invariant Valid() && ctrls.Keys == old(ctrls).Keys
        invariant Pass(order[i..], State(), p, reset, accepts) == Pass(order, old(State()), p, reset, accepts)
      {
        var name := order[i];
        assert order[i..][0] == name && order[i..][1..] == order[i + 1..];
        var c := ctrls[name];
        if !Skips(p, c.typ) {
          if Key(reset) !in c.attrs {
            return false;
          }
          var _ := SetValue(name, c.attrs[Key(reset)], accepts(|log|));
        }
        i := i + 1;
      }
      completed := true;
    }

    /** update(reset) (main.py:102-120). The device tool's answer to the k-th
        command of the log is `accepts(k)`; `completed` is false where reading
        an attribute a control lacks raised KeyError. */
    method Update(reset: bool, accepts: nat -> bool) returns (completed: bool)
      requires Valid()
      modifies this
      ensures Valid() && order == old(order)
      ensures Run(State(), completed) == UpdateRun(order, old(State()), reset, accepts)
    {
      completed := RunPass(FirstPass, reset, accepts);
      if completed {
        completed := RunPass(SecondPass, reset, accepts);
      }
    }
  }
}
