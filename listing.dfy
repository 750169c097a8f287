/** The control listing parser of CameraControl.get_ctls (main.py:33-67):
    one line of the device tool's control listing per control, matched by
    the pattern `(\w+).*?\(([a-z]+)\)\s*:\s(.*)$` and then searched for the
    attributes `min max step default value flags`, each as `attr=(-?\w+)`.
    The patterns are written out as functions that return the single match
    the regular-expression engine settles on. */
module ControlListing {
  import opened Values

  /** The attributes looked up in every line, in lookup order (main.py:34-41). */
  const ATTRS: seq<string> := ["min", "max", "step", "default", "value", "flags"]

  /** One control: its type word and the attributes its line carried. */
  datatype Control = Control(typ: string, attrs: map<string, Value>)

  /** `ctl.get("flags", "") == "inactive"` (main.py:89, 174, 219). */
  predicate IsInactive(c: Control)
  {
    "flags" in c.attrs && c.attrs["flags"] == StrV("inactive")
  }

  /** `ctl["value"] = v`: the stored value replaced, nothing else. */
  function WithValue(c: Control, v: Value): (r: Control)
    ensures r.typ == c.typ && "value" in r.attrs && r.attrs["value"] == v
    ensures r.attrs.Keys == c.attrs.Keys + {"value"}
    ensures forall a :: a in c.attrs && a != "value" ==> r.attrs[a] == c.attrs[a]
  {
    c.(attrs := c.attrs["value" := v])
  }

  // ---------------------------------------------------------------------
  // The line pattern

  /** `\(([a-z]+)\)\s*:\s(.*)$` tried at index q: the type word and the rest of the line. */
  function TailAt(s: string, q: nat): (r: Option<(string, string)>)
    requires q <= |s|
    ensures r.Some? ==> |r.value.0| > 0 && AllIn(r.value.0, Lower)
  {
    if q < |s| && s[q] == '(' then
      var r := RunEnd(s, q + 1, Lower);
      if q + 1 < r < |s| && s[r] == ')' then
        var t := RunEnd(s, r + 1, Space);
        if t + 1 < |s| && s[t] == ':' && IsSpace(s[t + 1]) then Some((s[q + 1..r], s[t + 2..]))
        else None
      else None
    else None
  }

  /** The lazy `.*?`: the first index at or after q where the tail matches. */
  function FindTail(s: string, q: nat): (r: Option<(string, string)>)
    requires q <= |s|
    ensures r.Some? ==> |r.value.0| > 0 && AllIn(r.value.0, Lower)
    decreases |s| - q
  {
    if q == |s| then None
    else
      match TailAt(s, q)
      case Some(r) => Some(r)
      case None => FindTail(s, q + 1)
  }

  /** The three groups of a matching listing line. */
  datatype LineMatch = LineMatch(name: string, typ: string, rest: string)

  /** The groups `re.split` returns for a line, or None where the pattern does
      not match. A match can only start at the first word character (`.*?`
      absorbs anything a later start would skip), and there the greedy `\w+`
      takes the whole word. */
  function MatchLine(line: string): (m: Option<LineMatch>)
    ensures m.Some? ==> |m.value.name| > 0 && AllIn(m.value.name, Word)
    ensures m.Some? ==> |m.value.typ| > 0 && AllIn(m.value.typ, Lower)
  {
    var st := WordStart(line, 0);
    if st == |line| then None
    else
      var e := RunEnd(line, st, Word);
      match FindTail(line, e)
      case None => None
      case Some(r) => Some(LineMatch(line[st..e], r.0, r.1))
  }

  /** `name` is the first word of `line`, starting at index st. */
  predicate FirstWordAt(line: string, st: nat, name: string)
  {
    && st + |name| <= |line|
    && line[st..st + |name|] == name
    && (forall k :: 0 <= k < st ==> !IsWordChar(line[k]))
    && (st + |name| == |line| || !IsWordChar(line[st + |name|]))
  }

  /** A parsed line is keyed by its first word. */
  lemma MatchLineName(line: string)
    requires MatchLine(line).Some?
    ensures exists st :: FirstWordAt(line, st, MatchLine(line).value.name)
  {
    var st := WordStart(line, 0);
    assert FirstWordAt(line, st, MatchLine(line).value.name);
  }

  lemma {:induction false} FindTailNoParen(s: string, q: nat)
    requires q <= |s|
    requires forall k :: q <= k < |s| ==> s[k] != '('
    ensures FindTail(s, q).None?
    decreases |s| - q
  {
    if q < |s| {
      FindTailNoParen(s, q + 1);
    }
  }

  /** A line without an opening parenthesis never matches: a blank line, or a
      heading such as `User Controls`. */
  lemma NoParenNoMatch(line: string)
    requires forall k :: 0 <= k < |line| ==> line[k] != '('
    ensures MatchLine(line).None?
  {
    var st := WordStart(line, 0);
    if st < |line| {
      FindTailNoParen(line, RunEnd(line, st, Word));
    }
  }

  lemma {:induction false} FindTailSkip(s: string, q: nat, c: nat)
    requires q <= c <= |s|
    requires forall k :: q <= k < c ==> s[k] != '('
    ensures FindTail(s, q) == FindTail(s, c)
    decreases c - q
  {
    if q < c {
      FindTailSkip(s, q + 1, c);
    }
  }

  /** The shape the device tool prints a control in:
      `<indent><name> <id> (<type>)<pad>: <attributes>`. */
  function RenderLine(indent: string, name: string, id: string, typ: string, pad: string, rest: string): string
  {
    indent + name + " " + id + " (" + typ + ")" + pad + ": " + rest
  }

  lemma TailOfRendered(head: string, typ: string, pad: string, rest: string)
    requires |typ| > 0 && AllIn(typ, Lower) && AllIn(pad, Space)
    ensures TailAt(head + "(" + typ + ")" + pad + ": " + rest, |head|) == Some((typ, rest))
  {
    var s := head + "(" + typ + ")" + pad + ": " + rest;
    var q := |head|;
    var r := q + 1 + |typ|;
    var t := r + 1 + |pad|;
    assert s[q] == '(';
    assert forall k :: q + 1 <= k < r ==> s[k] == typ[k - q - 1];
    assert s[r] == ')';
    assert RunEnd(s, q + 1, Lower) == r;
    assert forall k :: r + 1 <= k < t ==> s[k] == pad[k - r - 1];
    assert s[t] == ':' && s[t + 1] == ' ';
    assert RunEnd(s, r + 1, Space) == t;
    assert s[q + 1..r] == typ;
    assert s[t + 2..] == rest;
  }

  /** A line in the device tool's format parses to its name, type and attribute text. */
  lemma RenderedLineMatches(indent: string, name: string, id: string, typ: string, pad: string, rest: string)
    requires AllIn(indent, Space) && |name| > 0 && AllIn(name, Word) && AllIn(id, Word)
    requires |typ| > 0 && AllIn(typ, Lower) && AllIn(pad, Space)
    ensures MatchLine(RenderLine(indent, name, id, typ, pad, rest)) == Some(LineMatch(name, typ, rest))
  {
    var head := indent + name + " " + id + " ";
    var line := RenderLine(indent, name, id, typ, pad, rest);
    assert line == head + "(" + typ + ")" + pad + ": " + rest;
    var a := |indent|;
    var b := a + |name|;
    assert forall k :: 0 <= k < a ==> line[k] == indent[k];
    forall k | 0 <= k < a ensures !IsWordChar(line[k]) {
      SpaceIsNotWord(indent[k]);
    }
    assert forall k :: a <= k < b ==> line[k] == name[k - a];
    assert line[a] == name[0];
    assert WordStart(line, 0) == a;
    assert line[b] == ' ';
    assert RunEnd(line, a, Word) == b;
    assert line[a..b] == name;
    assert forall k :: b + 1 <= k < |head| - 1 ==> line[k] == id[k - b - 1];
    assert line[|head| - 1] == ' ';
    FindTailSkip(line, b, |head|);
    TailOfRendered(head, typ, pad, rest);
  }

  // ---------------------------------------------------------------------
  // The attribute patterns

  /** `a=(-?\w+)` tried at index p: the captured text. */
  function AttrAt(s: string, a: string, p: nat): (r: Option<string>)
    requires p <= |s|
    ensures r.Some? ==> |r.value| > 0
  {
    var v := p + |a| + 1;
    if v <= |s| && s[p..p + |a|] == a && s[p + |a|] == '=' then
      if v + 1 < |s| && s[v] == '-' && IsWordChar(s[v + 1]) then Some(s[v..RunEnd(s, v + 1, Word)])
      else if v < |s| && IsWordChar(s[v]) then Some(s[v..RunEnd(s, v, Word)])
      else None
    else None
  }

  /** `re.search`: the capture of the leftmost match at or after p. */
  function FindAttr(s: string, a: string, p: nat): (r: Option<string>)
    requires p <= |s|
    ensures r.Some? ==> exists q :: p <= q < |s| && AttrAt(s, a, q) == r
    decreases |s| - p
  {
    if p == |s| then None
    else
      match AttrAt(s, a, p)
      case Some(v) => Some(v)
      case None => FindAttr(s, a, p + 1)
  }

  /** The search finds an attribute iff some index matches, and then takes the
      leftmost match. */
  lemma {:induction false} FindAttrLeftmost(s: string, a: string, p: nat)
    requires p <= |s|
    ensures FindAttr(s, a, p).Some? <==> exists q :: p <= q < |s| && AttrAt(s, a, q).Some?
    ensures FindAttr(s, a, p).Some? ==>
      exists q :: p <= q < |s| && AttrAt(s, a, q) == FindAttr(s, a, p)
        && forall k :: p <= k < q ==> AttrAt(s, a, k).None?
    decreases |s| - p
  {
    if p < |s| {
      FindAttrLeftmost(s, a, p + 1);
      if AttrAt(s, a, p).None? && FindAttr(s, a, p + 1).Some? {
        var q :| p + 1 <= q < |s| && AttrAt(s, a, q) == FindAttr(s, a, p + 1)
          && forall k :: p + 1 <= k < q ==> AttrAt(s, a, k).None?;
        assert forall k :: p <= k < q ==> AttrAt(s, a, k).None?;
      }
    }
  }

  /** An attribute followed by an integer and then a non-word character (or the
      end) is captured with its sign. */
  lemma AttrAtInteger(pre: string, a: string, i: int, post: string)
    requires |post| > 0 ==> !IsWordChar(post[0])
    ensures AttrAt(pre + a + "=" + IntText(i) + post, a, |pre|) == Some(IntText(i))
  {
    var x := pre + a + "=";
    var t := IntText(i);
    var s := x + t + post;
    assert s == pre + a + "=" + IntText(i) + post;
    var v := |x|;
    var e := v + |t|;
    assert s[|pre|..|pre| + |a|] == a;
    assert s[|pre| + |a|] == '=';
    assert s[v..e] == t;
    assert e < |s| ==> s[e] == post[0];
    if i < 0 {
      var n := NatText(-i);
      assert t == "-" + n;
      assert s[v + 1..e] == n;
      assert s[v] == '-' && s[v + 1] == n[0];
      RunEndOver(s, v + 1, n, Word);
    } else {
      assert s[v] == t[0];
      RunEndOver(s, v, t, Word);
    }
  }

  /** The attributes of one line, looked up in the order of names (main.py:57-66).
      An attribute is present iff its search succeeds, and holds the converted
      capture of the leftmost match. */
  function Attrs(rest: string, names: seq<string>): (m: map<string, Value>)
    ensures forall a :: a in m <==> a in names && FindAttr(rest, a, 0).Some?
    ensures forall a :: a in m ==> m[a] == ToValue(FindAttr(rest, a, 0).value)
  {
    if names == [] then map[]
    else
      var m := Attrs(rest, names[..|names| - 1]);
      var a := names[|names| - 1];
      assert forall x :: x in names <==> x in names[..|names| - 1] || x == a;
      match FindAttr(rest, a, 0)
      case None => m
      case Some(v) => m[a := ToValue(v)]
  }

  /** The control a matching line describes (main.py:54-66). */
  function ControlOf(m: LineMatch): Control
  {
    Control(m.typ, Attrs(m.rest, ATTRS))
  }

  // ---------------------------------------------------------------------
  // The control table

  predicate Distinct(names: seq<string>)
  {
    forall i, j :: 0 <= i < j < |names| ==> names[i] != names[j]
  }

  /** An insertion-ordered dictionary from control name to control. */
  datatype Table = Table(order: seq<string>, ctrls: map<string, Control>)
  {
    /** The order lists every control exactly once and nothing else. */
    ghost predicate Valid()
    {
      && Distinct(order)
      && (forall n :: n in ctrls <==> n in order)
    }
  }

  /** `table[name] = c`: a new key goes last, an existing key keeps its place. */
  function Put(t: Table, name: string, c: Control): (r: Table)
    requires t.Valid()
    ensures r.Valid()
    ensures r.ctrls == t.ctrls[name := c]
    ensures forall k :: 0 <= k < |t.order| ==> k < |r.order| && r.order[k] == t.order[k]
  {
    if name in t.ctrls then Table(t.order, t.ctrls[name := c])
    else Table(t.order + [name], t.ctrls[name := c])
  }

  /** The table the listing fills, a line that does not match skipped. */
  function Listing(lines: seq<string>): (t: Table)
    ensures t.Valid()
  {
    if lines == [] then Table([], map[])
    else
      var t := Listing(lines[..|lines| - 1]);
      match MatchLine(lines[|lines| - 1])
      case None => t
      case Some(m) => Put(t, m.name, ControlOf(m))
  }

  predicate Names(line: string, name: string)
  {
    MatchLine(line).Some? && MatchLine(line).value.name == name
  }

  /** The table holds a control for exactly the names some line gives. */
  lemma {:induction false} ListingHas(lines: seq<string>, name: string)
    ensures name in Listing(lines).ctrls <==> exists i :: 0 <= i < |lines| && Names(lines[i], name)
  {
    if lines != [] {
      var init := lines[..|lines| - 1];
      var last := |lines| - 1;
      ListingHas(init, name);
      assert forall i :: 0 <= i < last ==> lines[i] == init[i];
      if Names(lines[last], name) {
        assert name in Listing(lines).ctrls;
      }
    }
  }

  /** The names of the matching lines, in listing order, repeats included. */
  function MatchedNames(lines: seq<string>): seq<string>
  {
    if lines == [] then []
    else
      var init := MatchedNames(lines[..|lines| - 1]);
      match MatchLine(lines[|lines| - 1])
      case None => init
      case Some(m) => init + [m.name]
  }

  /** The distinct elements of `s` in the order of their first occurrence. */
  function FirstSeen(s: seq<string>): seq<string>
  {
    if s == [] then []
    else
      var init := FirstSeen(s[..|s| - 1]);
      if s[|s| - 1] in init then init else init + [s[|s| - 1]]
  }

  lemma {:induction false} FirstSeenHas(s: seq<string>, x: string)
    ensures x in FirstSeen(s) <==> x in s
  {
    if s != [] {
      var init := s[..|s| - 1];
      FirstSeenHas(init, x);
      assert s == init + [s[|s| - 1]];
    }
  }

  /** The table's keys are in the order of the first line naming each: a
      later line for a name already present does not move it. */
  lemma {:induction false} ListingOrder(lines: seq<string>)
    ensures Listing(lines).order == FirstSeen(MatchedNames(lines))
  {
    if lines != [] {
      var init := lines[..|lines| - 1];
      ListingOrder(init);
      match MatchLine(lines[|lines| - 1]) {
        case None =>
        case Some(m) =>
          var names := MatchedNames(init) + [m.name];
          assert names[..|names| - 1] == MatchedNames(init);
          FirstSeenHas(MatchedNames(init), m.name);
      }
    }
  }

  /** Line i is the last line that names `name`. */
  predicate LastNames(lines: seq<string>, i: nat, name: string)
  {
    i < |lines| && Names(lines[i], name) && forall j :: i < j < |lines| ==> !Names(lines[j], name)
  }

  /** A later line for the same name overwrites the control of an earlier one. */
  lemma {:induction false} ListingLast(lines: seq<string>, i: nat, name: string)
    requires LastNames(lines, i, name)
    ensures name in Listing(lines).ctrls
    ensures Listing(lines).ctrls[name] == ControlOf(MatchLine(lines[i]).value)
  {
    var init := lines[..|lines| - 1];
    if i < |lines| - 1 {
      assert forall j :: 0 <= j < |init| ==> lines[j] == init[j];
      assert LastNames(init, i, name);
      ListingLast(init, i, name);
      assert !Names(lines[|lines| - 1], name);
    }
  }

  // ---------------------------------------------------------------------
  // The listing as the source is written

  /** The pattern does not match the line. */
  predicate Unmatched(line: string)
  {
    MatchLine(line).None?
  }

  /** get_ctls as written meets a line it cannot index: `re.split` of a line
      that does not match returns the one-element list [line], so the guard
      `if not m` (main.py:51) never fires and `m[1]` raises IndexError. */
  predicate RaisesAsWritten(lines: seq<string>)
  {
    lines != [] && (RaisesAsWritten(lines[..|lines| - 1]) || Unmatched(lines[|lines| - 1]))
  }

  /** get_ctls as written: the exception leaves get_ctls (None), or every line
      matched and the table is filled. */
  function ListingAsWritten(lines: seq<string>): (r: Option<Table>)
    ensures r.None? <==> exists i :: 0 <= i < |lines| && Unmatched(lines[i])
    ensures r.Some? ==> r.value == Listing(lines)
  {
    AsWrittenRaisesIff(lines);
    if RaisesAsWritten(lines) then None else Some(Listing(lines))
  }

  /** As written, the listing raises iff some line does not match. */
  lemma {:induction false} AsWrittenRaisesIff(lines: seq<string>)
    ensures RaisesAsWritten(lines) <==> exists i :: 0 <= i < |lines| && Unmatched(lines[i])
  {
    if lines != [] {
      var init := lines[..|lines| - 1];
      AsWrittenRaisesIff(init);
      assert forall i :: 0 <= i < |init| ==> lines[i] == init[i];
      if RaisesAsWritten(init) {
        var i :| 0 <= i < |init| && Unmatched(init[i]);
        assert Unmatched(lines[i]);
      }
    }
  }

  /** A heading line in the listing (the device tool prints one per control
      class, such as `User Controls`, and blank lines around it) makes the
      listing as written raise, while the corrected listing skips it. */
  lemma HeadingLineRaises(lines: seq<string>, heading: string)
    requires forall k :: 0 <= k < |heading| ==> heading[k] != '('
    ensures ListingAsWritten(lines + [heading]).None?
    ensures Listing(lines + [heading]) == Listing(lines)
  {
    NoParenNoMatch(heading);
    var all := lines + [heading];
    assert all[..|all| - 1] == lines;
    assert Unmatched(all[|all| - 1]);
  }
}
