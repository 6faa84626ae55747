/**
 * The transition descriptor of src/models/transition.model.ts: one or several
 * source states, one or several destination states, an optional name, and its
 * text rendering `toString`.
 */
module Transitions {
  import opened Wrappers

  /** An endpoint of a transition, `T | Array<T>`: a single state or an array of states. */
  datatype Endpoint<T> = One(state: T) | Many(states: seq<T>)

  /**
   * A transition. The constructor copies whatever fields its partial
   * configuration supplies, so each field may be left unset (None).
   */
  datatype Transition<T> = Transition(from: Option<Endpoint<T>>, to: Option<Endpoint<T>>, name: Option<string>)

  /** The transition with no field set, which `new Transition()` yields. */
  function Unset<T>(): (t: Transition<T>)
    ensures t.from == None && t.to == None && t.name == None
  {
    Transition(None, None, None)
  }

  /**
   * `new Transition(config?)`: `Object.assign` of the supplied partial
   * configuration onto an empty object. Fields the configuration supplies are
   * copied, the others stay unset; without a configuration nothing is set.
   */
  function Create<T>(config: Option<Transition<T>>): (t: Transition<T>)
    ensures config.Some? ==> t.from == config.value.from && t.to == config.value.to && t.name == config.value.name
    ensures config.None? ==> t.from == None && t.to == None && t.name == None
  {
    match config
    case Some(c) => Transition(c.from, c.to, c.name)
    case None => Unset()
  }

  /** JavaScript truthiness of the `name` field: set and not the empty string. */
  predicate NameIsTruthy(name: Option<string>)
  {
    name.Some? && name.value != ""
  }

  /** `Array.prototype.join(sep)` on strings. */
  function Join(parts: seq<string>, sep: string): string
  {
    if |parts| == 0 then ""
    else if |parts| == 1 then parts[0]
    else parts[0] + sep + Join(parts[1..], sep)
  }

  /** Renders every state with `show`, element by element. */
  function ShowAll<T>(xs: seq<T>, show: T -> string): (r: seq<string>)
    ensures |r| == |xs| && forall i :: 0 <= i < |xs| ==> r[i] == show(xs[i])
  {
    seq(|xs|, i requires 0 <= i < |xs| => show(xs[i]))
  }

  /**
   * The template-literal rendering of one endpoint: an array is bracketed and
   * comma-joined, a single state renders as itself, an unset field as "undefined".
   */
  function Render<T>(e: Option<Endpoint<T>>, show: T -> string): (r: string)
    ensures e.None? ==> r == "undefined"
    ensures e.Some? && e.value.Many? ==> |r| >= 2 && r[0] == '[' && r[|r| - 1] == ']'
  {
    match e
    case None => "undefined"
    case Some(One(x)) => show(x)
    case Some(Many(xs)) => "[" + Join(ShowAll(xs, show), ",") + "]"
  }

  /** The name suffix: " (name)" when the name is truthy, nothing otherwise. */
  function Suffix(name: Option<string>): (r: string)
    ensures r == "" <==> !NameIsTruthy(name)
    ensures NameIsTruthy(name) ==> |r| == |name.value| + 3 && r[..2] == " (" && r[|r| - 1] == ')'
  {
    if NameIsTruthy(name) then " (" + name.value + ")" else ""
  }

  /**
   * `Transition.prototype.toString`: the from part ending in the arrow, then
   * the to part, then the name suffix.
   */
  function ToString<T>(t: Transition<T>, show: T -> string): (r: string)
    ensures var f := Render(t.from, show) + "->";
      && |f| <= |r| && r[..|f|] == f && r[|f| - 2..|f|] == "->"
      && r[|f|..] == Render(t.to, show) + Suffix(t.name)
  {
    (Render(t.from, show) + "->") + (Render(t.to, show) + Suffix(t.name))
  }

  // ---------------------------------------------------------------------------
  // Splitting on a separator character: the inverse of joining.
  // ---------------------------------------------------------------------------

  /** `String.prototype.split(c)` for a one-character separator. */
  function Split(s: string, c: char): (r: seq<string>)
    ensures |r| >= 1
  {
    if |s| == 0 then [""]
    else if s[0] == c then [""] + Split(s[1..], c)
    else var rest := Split(s[1..], c); [[s[0]] + rest[0]] + rest[1..]
  }

  lemma {:induction false} SplitAfterPart(p: string, c: char, rest: string)
    requires c !in p
    ensures Split(p + [c] + rest, c) == [p] + Split(rest, c)
  {
    if |p| == 0 {
      assert p + [c] + rest == [c] + rest;
      assert ([c] + rest)[1..] == rest;
    } else {
      SplitAfterPart(p[1..], c, rest);
      assert (p + [c] + rest)[1..] == p[1..] + [c] + rest;
      assert [p[0]] + p[1..] == p;
    }
  }

  lemma {:induction false} SplitWhole(p: string, c: char)
    requires c !in p
    ensures Split(p, c) == [p]
  {
    if |p| > 0 {
      SplitWhole(p[1..], c);
      assert [p[0]] + p[1..] == p;
    }
  }

  /**
   * Comma-joining loses nothing when no part contains a comma: splitting the
   * joined text gives the parts back. (The empty list is excluded because
   * `[].join(",")` and `[""].join(",")` are both "".)
   */
  lemma {:induction false} SplitJoin(parts: seq<string>)
    requires |parts| >= 1
    requires forall i :: 0 <= i < |parts| ==> ',' !in parts[i]
    ensures Split(Join(parts, ","), ',') == parts
  {
    if |parts| == 1 {
      SplitWhole(parts[0], ',');
    } else {
      SplitJoin(parts[1..]);
      assert parts[0] + "," + Join(parts[1..], ",") == parts[0] + [','] + Join(parts[1..], ",");
      SplitAfterPart(parts[0], ',', Join(parts[1..], ","));
      assert [parts[0]] + parts[1..] == parts;
    }
  }

  /** The length of a joined text: the parts and one separator between each two. */
  lemma {:induction false} JoinLength(parts: seq<string>, sep: string)
    requires |parts| >= 1
    ensures |Join(parts, sep)| == TotalLength(parts) + (|parts| - 1) * |sep|
  {
    if |parts| > 1 {
      JoinLength(parts[1..], sep);
    }
  }

  /** The sum of the lengths of the parts. */
  function TotalLength(parts: seq<string>): nat
  {
    if |parts| == 0 then 0 else |parts[0]| + TotalLength(parts[1..])
  }

  // ---------------------------------------------------------------------------
  // What toString promises.
  // ---------------------------------------------------------------------------

  /** A one-element array endpoint is still bracketed: `[x]` renders as "[" + show(x) + "]". */
  lemma SingletonArrayBracketed<T>(x: T, show: T -> string)
    ensures Render(Some(Many([x])), show) == "[" + show(x) + "]"
  {
    assert ShowAll([x], show) == [show(x)];
  }

  /**
   * The text between the brackets of an array endpoint splits back into the
   * rendered elements when no rendered state contains a comma.
   */
  lemma ArrayEndpointRendering<T>(xs: seq<T>, show: T -> string)
    requires |xs| >= 1
    requires forall i :: 0 <= i < |xs| ==> ',' !in show(xs[i])
    ensures var r := Render(Some(Many(xs)), show);
      Split(r[1..|r| - 1], ',') == ShowAll(xs, show)
  {
    var parts := ShowAll(xs, show);
    var r := Render(Some(Many(xs)), show);
    assert r == "[" + Join(parts, ",") + "]";
    assert r[1..|r| - 1] == Join(parts, ",");
    SplitJoin(parts);
  }

  /**
   * Between two single states and without a truthy name, the text is just
   * `show(from) + "->" + show(to)`; with an array on either side, that side is
   * bracketed.
   */
  lemma ToStringParts<T>(t: Transition<T>, show: T -> string)
    ensures t.from.Some? && t.from.value.One? && t.to.Some? && t.to.value.One? && !NameIsTruthy(t.name) ==>
      ToString(t, show) == show(t.from.value.state) + "->" + show(t.to.value.state)
    ensures t.from.Some? && t.from.value.Many? ==> ToString(t, show)[0] == '['
    ensures t.to.Some? && t.to.value.Many? && !NameIsTruthy(t.name) ==> ToString(t, show)[|ToString(t, show)| - 1] == ']'
  {
    var s := ToString(t, show);
    var f := Render(t.from, show) + "->";
    assert s == f + (Render(t.to, show) + Suffix(t.name));
  }

  /**
   * The suffix " (name)" is appended exactly when the name is truthy: with a
   * truthy name the text ends with it, and otherwise the text is the same as
   * for the transition without a name.
   */
  lemma NameSuffixIffTruthy<T>(t: Transition<T>, show: T -> string)
    ensures NameIsTruthy(t.name) ==>
      var s := ToString(t, show); var x := " (" + t.name.value + ")";
      |x| <= |s| && s[|s| - |x|..] == x
    ensures !NameIsTruthy(t.name) <==> ToString(t, show) == ToString(t.(name := None), show)
  {
    var s := ToString(t, show);
    var base := Render(t.from, show) + "->" + Render(t.to, show);
    if NameIsTruthy(t.name) {
      var x := " (" + t.name.value + ")";
      assert s == base + x;
      assert |s| == |base| + |x|;
      assert s[|s| - |x|..] == x;
      assert ToString(t.(name := None), show) == base;
      assert |s| > |base|;
    }
  }
}
