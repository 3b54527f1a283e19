/** JSON documents, the strings in them, and where RFC 6901 pointers lead. */
module Json {
  import opened Seqs
  import Decimal

  /** Numbers keep the text they are written with; object members keep their order. */
  datatype Json =
    | Null
    | Bool(value: bool)
    | Number(text: string)
    | String(text: string)
    | Array(items: seq<Json>)
    | Object(members: seq<(string, Json)>)

  datatype Step = Key(name: string) | Index(at: nat)

  datatype Child = Child(step: Step, value: Json)

  function Children(v: Json): (cs: seq<Child>)
    ensures forall c <- cs :: c.value < v
  {
    match v
    case Array(items) => seq(|items|, i requires 0 <= i < |items| => Child(Index(i), items[i]))
    case Object(members) => seq(|members|, i requires 0 <= i < |members| => Child(Key(members[i].0), members[i].1))
    case _ => []
  }

  /** The same container with other values in its places. */
  function WithValues(v: Json, values: seq<Json>): Json
    requires |values| == |Children(v)|
  {
    match v
    case Array(_) => Array(values)
    case Object(members) => Object(seq(|members|, i requires 0 <= i < |members| => (members[i].0, values[i])))
    case _ => v
  }

  /** Member names of every object are distinct. */
  ghost predicate UniqueNames(v: Json) {
    && (forall i, j :: 0 <= i < j < |Children(v)| ==> Children(v)[i].step != Children(v)[j].step)
    && (forall c <- Children(v) :: UniqueNames(c.value))
  }

  lemma WithValuesHasThem(v: Json, values: seq<Json>)
    requires |values| == |Children(v)|
    ensures var cs := Children(WithValues(v, values));
            |cs| == |values| && forall i :: 0 <= i < |values| ==> cs[i] == Child(Children(v)[i].step, values[i])
  {
  }

  // ---- String leaves ----------------------------------------------------------------------

  type Path = seq<Step>

  datatype Leaf = Leaf(path: Path, text: string)

  /** The strings of a document with their paths, in document order. */
  function Leaves(v: Json, path: Path): seq<Leaf>
    decreases v, 1, 0
  {
    if v.String? then [Leaf(path, v.text)] else LeavesOf(v, Children(v), path)
  }

  function LeavesOf(v: Json, cs: seq<Child>, path: Path): seq<Leaf>
    requires forall c <- cs :: c.value < v
    decreases v, 0, |cs|
  {
    if cs == [] then [] else Leaves(cs[0].value, path + [cs[0].step]) + LeavesOf(v, cs[1..], path)
  }

  lemma {:induction false} LeavesOfAppend(v: Json, cs: seq<Child>, c: Child, path: Path)
    requires c.value < v && forall d <- cs :: d.value < v
    ensures LeavesOf(v, cs + [c], path) == LeavesOf(v, cs, path) + Leaves(c.value, path + [c.step])
  {
    if cs == [] {
      assert ([c])[1..] == [];
    } else {
      assert (cs + [c])[1..] == cs[1..] + [c];
      LeavesOfAppend(v, cs[1..], c, path);
    }
  }

  /** The document with the text of each leaf replaced. */
  function MapAt(f: Leaf -> string, v: Json, path: Path): Json
    decreases v
  {
    if v.String? then String(f(Leaf(path, v.text)))
    else
      var cs := Children(v);
      WithValues(v, seq(|cs|, i requires 0 <= i < |cs| => MapAt(f, cs[i].value, path + [cs[i].step])))
  }

  function MapLeaves(f: Leaf -> string, leaves: seq<Leaf>): (mapped: seq<Leaf>)
    ensures |mapped| == |leaves|
    ensures forall i :: 0 <= i < |leaves| ==> mapped[i] == Leaf(leaves[i].path, f(leaves[i]))
  {
    if leaves == [] then [] else [Leaf(leaves[0].path, f(leaves[0]))] + MapLeaves(f, leaves[1..])
  }

  lemma {:induction false} MapLeavesConcat(f: Leaf -> string, a: seq<Leaf>, b: seq<Leaf>)
    ensures MapLeaves(f, a + b) == MapLeaves(f, a) + MapLeaves(f, b)
  {
    if a == [] {
      assert a + b == b;
    } else {
      assert (a + b)[1..] == a[1..] + b;
      MapLeavesConcat(f, a[1..], b);
    }
  }

  /** The mapped document has the same leaves at the same paths, each with its new text. */
  lemma {:induction false} MappedLeaves(f: Leaf -> string, v: Json, path: Path)
    ensures Leaves(MapAt(f, v, path), path) == MapLeaves(f, Leaves(v, path))
    decreases v, 1, 0
  {
    if v.String? {
      assert Leaves(v, path)[1..] == [];
    } else {
      var w, cs := MapAt(f, v, path), Children(v);
      var values := seq(|cs|, i requires 0 <= i < |cs| => MapAt(f, cs[i].value, path + [cs[i].step]));
      assert w == WithValues(v, values);
      WithValuesHasThem(v, values);
      MappedLeavesOf(f, v, w, 0, path);
      assert cs[0..] == cs && Children(w)[0..] == Children(w);
    }
  }

  lemma {:induction false} MappedLeavesOf(f: Leaf -> string, v: Json, w: Json, i: nat, path: Path)
    requires |Children(w)| == |Children(v)| && i <= |Children(v)|
    requires forall k :: 0 <= k < |Children(v)| ==>
        var c := Children(v)[k]; Children(w)[k] == Child(c.step, MapAt(f, c.value, path + [c.step]))
    ensures LeavesOf(w, Children(w)[i..], path) == MapLeaves(f, LeavesOf(v, Children(v)[i..], path))
    decreases v, 0, |Children(v)| - i
  {
    if i < |Children(v)| {
      var c := Children(v)[i];
      assert Children(v)[i..][1..] == Children(v)[i + 1..] && Children(w)[i..][1..] == Children(w)[i + 1..];
      MappedLeaves(f, c.value, path + [c.step]);
      MappedLeavesOf(f, v, w, i + 1, path);
      MapLeavesConcat(f, Leaves(c.value, path + [c.step]), LeavesOf(v, Children(v)[i + 1..], path));
    }
  }

  // ---- Shape ------------------------------------------------------------------------------

  /** The document with every string blank: containers, member names, numbers and the rest as they are. */
  function Erased(v: Json): Json
    decreases v
  {
    if v.String? then String("")
    else
      var cs := Children(v);
      WithValues(v, seq(|cs|, i requires 0 <= i < |cs| => Erased(cs[i].value)))
  }

  /** The same kind of container with the same steps to its children; other values are equal. */
  ghost predicate SameOutside(v: Json, w: Json) {
    && !v.String? && !w.String? && |Children(v)| == |Children(w)|
    && (forall i :: 0 <= i < |Children(v)| ==> Children(v)[i].step == Children(w)[i].step)
    && (v.Array? <==> w.Array?) && (v.Object? <==> w.Object?) && (!v.Array? && !v.Object? ==> v == w)
  }

  lemma ErasedChildren(v: Json)
    requires !v.String?
    ensures SameOutside(v, Erased(v))
    ensures forall i :: 0 <= i < |Children(v)| ==> Children(Erased(v))[i].value == Erased(Children(v)[i].value)
  {
    var cs := Children(v);
    WithValuesHasThem(v, seq(|cs|, i requires 0 <= i < |cs| => Erased(cs[i].value)));
  }

  /** Documents of the same outside whose children agree are equal. */
  lemma SameInside(v: Json, w: Json)
    requires SameOutside(v, w) && forall i :: 0 <= i < |Children(v)| ==> Children(v)[i].value == Children(w)[i].value
    ensures v == w
  {
    match v
    case Array(items) =>
      forall i | 0 <= i < |items| ensures items[i] == w.items[i] {
        assert Children(v)[i].value == items[i] && Children(w)[i].value == w.items[i];
      }
    case Object(members) =>
      forall i | 0 <= i < |members| ensures members[i] == w.members[i] {
        assert Children(v)[i] == Child(Key(members[i].0), members[i].1) && Children(w)[i] == Child(Key(w.members[i].0), w.members[i].1);
      }
    case _ =>
  }

  lemma SameShapeOutside(v: Json, w: Json)
    requires Erased(v) == Erased(w) && !v.String?
    ensures SameOutside(v, w)
    ensures forall i :: 0 <= i < |Children(v)| ==> Erased(Children(v)[i].value) == Erased(Children(w)[i].value)
  {
    ErasedChildren(v);
    if !w.String? { ErasedChildren(w); }
  }

  /** Rewriting strings keeps the tree's shape. */
  lemma {:induction false} MappedShape(f: Leaf -> string, v: Json, path: Path)
    ensures Erased(MapAt(f, v, path)) == Erased(v)
    decreases v
  {
    if !v.String? {
      var w, cs := MapAt(f, v, path), Children(v);
      var values := seq(|cs|, i requires 0 <= i < |cs| => MapAt(f, cs[i].value, path + [cs[i].step]));
      WithValuesHasThem(v, values);
      assert SameOutside(v, w);
      ErasedChildren(v);
      ErasedChildren(w);
      forall i | 0 <= i < |cs| ensures Children(Erased(w))[i].value == Children(Erased(v))[i].value {
        MappedShape(f, cs[i].value, path + [cs[i].step]);
      }
      SameInside(Erased(w), Erased(v));
    }
  }

  lemma {:induction false} SameShapeCount(v: Json, w: Json, path: Path)
    requires Erased(v) == Erased(w)
    ensures v.String? <==> w.String?
    ensures |Leaves(v, path)| == |Leaves(w, path)|
    decreases v, 1, 0
  {
    if !v.String? {
      SameShapeOutside(v, w);
      SameShapeCountOf(v, w, 0, path);
      assert Children(v)[0..] == Children(v) && Children(w)[0..] == Children(w);
    } else if !w.String? {
      ErasedChildren(w);
    }
  }

  lemma {:induction false} SameShapeCountOf(v: Json, w: Json, i: nat, path: Path)
    requires SameOutside(v, w) && i <= |Children(v)|
    requires forall k :: 0 <= k < |Children(v)| ==> Erased(Children(v)[k].value) == Erased(Children(w)[k].value)
    ensures |LeavesOf(v, Children(v)[i..], path)| == |LeavesOf(w, Children(w)[i..], path)|
    decreases v, 0, |Children(v)| - i
  {
    var cs, ds := Children(v), Children(w);
    if i < |cs| {
      SameShapeCount(cs[i].value, ds[i].value, path + [cs[i].step]);
      SameShapeCountOf(v, w, i + 1, path);
      assert cs[i..][1..] == cs[i + 1..] && ds[i..][1..] == ds[i + 1..];
    }
  }

  /** A document is determined by its shape and its strings. */
  lemma {:induction false} ShapeAndLeavesDetermine(v: Json, w: Json, path: Path)
    requires Erased(v) == Erased(w) && Leaves(v, path) == Leaves(w, path)
    ensures v == w
    decreases v, 1, 0
  {
    SameShapeCount(v, w, path);
    if v.String? {
      assert Leaves(v, path)[0].text == v.text && Leaves(w, path)[0].text == w.text;
    } else {
      SameShapeOutside(v, w);
      assert Children(v)[0..] == Children(v) && Children(w)[0..] == Children(w);
      ChildrenDetermined(v, w, 0, path);
      SameInside(v, w);
    }
  }

  lemma {:induction false} ChildrenDetermined(v: Json, w: Json, i: nat, path: Path)
    requires SameOutside(v, w) && i <= |Children(v)|
    requires forall k :: 0 <= k < |Children(v)| ==> Erased(Children(v)[k].value) == Erased(Children(w)[k].value)
    requires LeavesOf(v, Children(v)[i..], path) == LeavesOf(w, Children(w)[i..], path)
    ensures forall k :: i <= k < |Children(v)| ==> Children(v)[k].value == Children(w)[k].value
    decreases v, 0, |Children(v)| - i
  {
    var cs, ds := Children(v), Children(w);
    if i < |cs| {
      assert cs[i..][1..] == cs[i + 1..] && ds[i..][1..] == ds[i + 1..];
      var a, b := Leaves(cs[i].value, path + [cs[i].step]), Leaves(ds[i].value, path + [ds[i].step]);
      SameShapeCount(cs[i].value, ds[i].value, path + [cs[i].step]);
      SplitEqually(a, LeavesOf(v, cs[i + 1..], path), b, LeavesOf(w, ds[i + 1..], path));
      ShapeAndLeavesDetermine(cs[i].value, ds[i].value, path + [cs[i].step]);
      ChildrenDetermined(v, w, i + 1, path);
    }
  }

  lemma SplitEqually<T>(a: seq<T>, rest: seq<T>, b: seq<T>, others: seq<T>)
    requires a + rest == b + others && |a| == |b|
    ensures a == b && rest == others
  {
    assert a == (a + rest)[..|a|] && b == (b + others)[..|b|];
    assert rest == (a + rest)[|a|..] && others == (b + others)[|b|..];
  }

  /** The mapped document is the one of the same shape with the mapped strings, and no other. */
  lemma MappedExactly(f: Leaf -> string, v: Json, w: Json, path: Path)
    ensures w == MapAt(f, v, path) <==> Erased(w) == Erased(v) && Leaves(w, path) == MapLeaves(f, Leaves(v, path))
  {
    MappedShape(f, v, path);
    MappedLeaves(f, v, path);
    if Erased(w) == Erased(v) && Leaves(w, path) == MapLeaves(f, Leaves(v, path)) {
      ShapeAndLeavesDetermine(w, MapAt(f, v, path), path);
    }
  }

  function NameOf(c: Child): seq<string> { if c.step.Key? then [c.step.name] else [] }

  /** Every member name and number of a document. */
  function FixedTexts(v: Json): seq<string>
    decreases v, 1, 0
  {
    if v.Number? then [v.text] else FixedTextsOf(v, Children(v))
  }

  function FixedTextsOf(v: Json, cs: seq<Child>): seq<string>
    requires forall c <- cs :: c.value < v
    decreases v, 0, |cs|
  {
    if cs == [] then []
    else NameOf(cs[0]) + FixedTexts(cs[0].value) + FixedTextsOf(v, cs[1..])
  }

  lemma {:induction false} FixedTextsOfAppend(v: Json, cs: seq<Child>, c: Child)
    requires c.value < v && forall d <- cs :: d.value < v
    ensures FixedTextsOf(v, cs + [c]) == FixedTextsOf(v, cs) + (NameOf(c) + FixedTexts(c.value))
  {
    var own := NameOf(c) + FixedTexts(c.value);
    if cs == [] {
      assert ([c])[1..] == [];
      assert own + [] == [] + own;
    } else {
      assert (cs + [c])[1..] == cs[1..] + [c];
      FixedTextsOfAppend(v, cs[1..], c);
      ConcatAssociates(NameOf(cs[0]) + FixedTexts(cs[0].value), FixedTextsOf(v, cs[1..]), own);
    }
  }

  /** `x` stands in `v` at the end of `path`. */
  ghost predicate Within(v: Json, path: Path, x: Json)
    decreases |path|
  {
    if path == [] then x == v
    else exists i :: 0 <= i < |Children(v)| && Children(v)[i].step == path[0] && Within(Children(v)[i].value, path[1..], x)
  }

  /** A number written so, or a member of this name, at whatever depth. */
  ghost predicate IsFixedText(path: Path, x: Json, t: string) {
    x == Number(t) || (path != [] && path[|path| - 1] == Key(t))
  }

  lemma {:induction false} FixedTextsIn(v: Json, cs: seq<Child>, t: string)
    requires forall c <- cs :: c.value < v
    ensures t in FixedTextsOf(v, cs) <==> exists i :: 0 <= i < |cs| && (t in NameOf(cs[i]) || t in FixedTexts(cs[i].value))
  {
    if cs != [] {
      FixedTextsIn(v, cs[1..], t);
      assert forall i :: 0 < i < |cs| ==> cs[i] == cs[1..][i - 1];
      assert t in FixedTextsOf(v, cs[1..]) <==> exists i :: 0 < i < |cs| && (t in NameOf(cs[i]) || t in FixedTexts(cs[i].value));
    }
  }

  lemma {:induction false} FixedTextStands(v: Json, t: string) returns (path: Path, x: Json)
    requires t in FixedTexts(v)
    ensures Within(v, path, x) && IsFixedText(path, x, t)
    decreases v
  {
    if v.Number? {
      path, x := [], v;
    } else {
      var cs := Children(v);
      FixedTextsIn(v, cs, t);
      var i :| 0 <= i < |cs| && (t in NameOf(cs[i]) || t in FixedTexts(cs[i].value));
      if t in NameOf(cs[i]) {
        path, x := [cs[i].step], cs[i].value;
        assert path[1..] == [];
      } else {
        var below;
        below, x := FixedTextStands(cs[i].value, t);
        path := [cs[i].step] + below;
        assert path[1..] == below;
      }
    }
  }

  lemma {:induction false} StandingIsFixed(v: Json, path: Path, x: Json, t: string)
    requires Within(v, path, x) && IsFixedText(path, x, t)
    ensures t in FixedTexts(v)
    decreases |path|
  {
    if path != [] {
      var cs := Children(v);
      var i :| 0 <= i < |cs| && cs[i].step == path[0] && Within(cs[i].value, path[1..], x);
      if x == Number(t) || |path| > 1 { StandingIsFixed(cs[i].value, path[1..], x, t); }
      FixedTextsIn(v, cs, t);
    }
  }

  /** The fixed texts are the numbers and the member names, at every depth. */
  lemma FixedTextsExactly(v: Json, t: string)
    ensures t in FixedTexts(v) <==> exists path, x :: Within(v, path, x) && IsFixedText(path, x, t)
  {
    if t in FixedTexts(v) { var path, x := FixedTextStands(v, t); }
    if path, x :| Within(v, path, x) && IsFixedText(path, x, t) { StandingIsFixed(v, path, x, t); }
  }

  // ---- Pointers ---------------------------------------------------------------------------

  function ReplaceChar(s: string, c: char, instead: string): string {
    if s == "" then "" else (if s[0] == c then instead else [s[0]]) + ReplaceChar(s[1..], c, instead)
  }

  /** Left to right, each `~` followed by `mark` becomes `c`. */
  function ReplaceMarked(s: string, mark: char, c: char): string {
    if s == "" then ""
    else if |s| >= 2 && s[0] == '~' && s[1] == mark then [c] + ReplaceMarked(s[2..], mark, c)
    else [s[0]] + ReplaceMarked(s[1..], mark, c)
  }

  function Escape(name: string): string { ReplaceChar(ReplaceChar(name, '~', "~0"), '/', "~1") }

  /** Section 4 of RFC 6901: first `~1`, then `~0`. */
  function Unescape(token: string): string { ReplaceMarked(ReplaceMarked(token, '1', '/'), '0', '~') }

  function Token(step: Step): string {
    match step
    case Key(name) => Escape(name)
    case Index(i) => Decimal.Print(i)
  }

  function Pointer(path: Path): string {
    if path == [] then "" else Pointer(path[..|path| - 1]) + "/" + Token(path[|path| - 1])
  }

  lemma PointerSnoc(path: Path, step: Step)
    ensures Pointer(path + [step]) == Pointer(path) + "/" + Token(step)
  {
    assert (path + [step])[..|path|] == path;
  }

  /** Sections 3 and 4 of RFC 6901: the reference tokens of a pointer. */
  function Tokens(pointer: string): Option<seq<string>> {
    if pointer == "" then Some([])
    else if pointer[0] != '/' then None
    else Some(UnescapeAll(SplitOn(pointer[1..], '/')))
  }

  function UnescapeAll(parts: seq<string>): (tokens: seq<string>)
    ensures |tokens| == |parts|
  {
    if parts == [] then [] else [Unescape(parts[0])] + UnescapeAll(parts[1..])
  }

  /** An array index: a decimal numeral without a leading zero. */
  function ParseIndex(token: string): Option<nat> {
    if |token| > 1 && token[0] == '0' then None else Decimal.Parse(token)
  }

  /** Whether a reference token selects a step. */
  predicate Selects(v: Json, token: string, step: Step) {
    match step
    case Key(name) => v.Object? && token == name
    case Index(i) => v.Array? && ParseIndex(token) == Some(i)
  }

  /** The path and value reached from `v`, if the tokens lead anywhere. */
  function Follow(v: Json, tokens: seq<string>, path: Path): Option<Leaf>
    decreases v, 1, 0
  {
    if tokens == [] then if v.String? then Some(Leaf(path, v.text)) else None
    else FollowIn(v, Children(v), tokens, path)
  }

  function FollowIn(v: Json, cs: seq<Child>, tokens: seq<string>, path: Path): Option<Leaf>
    requires tokens != [] && forall c <- cs :: c.value < v
    decreases v, 0, |cs|
  {
    if cs == [] then None
    else if Selects(v, tokens[0], cs[0].step) then Follow(cs[0].value, tokens[1..], path + [cs[0].step])
    else FollowIn(v, cs[1..], tokens, path)
  }

  function Resolve(v: Json, pointer: string): Option<Leaf> {
    var tokens := Tokens(pointer);
    if tokens.None? then None else Follow(v, tokens.value, [])
  }

  // ---- Pointers lead back to the leaves they were made for --------------------------------

  /** Every `~` is followed by `0`. */
  ghost predicate TildesMarked(s: string) {
    forall i :: 0 <= i < |s| && s[i] == '~' ==> i + 1 < |s| && s[i + 1] == '0'
  }

  lemma {:induction false} EscapedTildes(name: string)
    ensures TildesMarked(ReplaceChar(name, '~', "~0"))
  {
    if name != "" {
      var head := if name[0] == '~' then "~0" else [name[0]];
      EscapedTildes(name[1..]);
      TildesMarkedConcat(head, ReplaceChar(name[1..], '~', "~0"));
    }
  }

  lemma TildesMarkedConcat(a: string, b: string)
    requires TildesMarked(a) && TildesMarked(b)
    ensures TildesMarked(a + b)
  {
    forall i | 0 <= i < |a + b| && (a + b)[i] == '~' ensures i + 1 < |a + b| && (a + b)[i + 1] == '0' {
      if i >= |a| { assert b[i - |a|] == '~' && (a + b)[i + 1] == b[i + 1 - |a|]; }
    }
  }

  lemma {:induction false} UnescapedTildes(name: string)
    ensures ReplaceMarked(ReplaceChar(name, '~', "~0"), '0', '~') == name
  {
    if name != "" {
      var head, rest := if name[0] == '~' then "~0" else [name[0]], ReplaceChar(name[1..], '~', "~0");
      UnescapedTildes(name[1..]);
      assert (head + rest)[|head|..] == rest;
      assert name == [name[0]] + name[1..];
    }
  }

  lemma {:induction false} EscapedSlashes(s: string)
    requires TildesMarked(s)
    ensures ReplaceMarked(ReplaceChar(s, '/', "~1"), '1', '/') == s
    ensures '/' !in ReplaceChar(s, '/', "~1")
  {
    if s != "" {
      var t := s[1..];
      assert forall i :: 0 <= i < |t| ==> t[i] == s[i + 1];
      EscapedSlashes(t);
      var escaped, rest := ReplaceChar(s, '/', "~1"), ReplaceChar(t, '/', "~1");
      if s[0] == '/' {
        assert escaped[2..] == rest;
      } else {
        assert escaped[1..] == rest;
        assert s[0] == '~' ==> escaped[1] == '0';
      }
      assert s == [s[0]] + t;
    }
  }

  /** Unescaping undoes escaping, and an escaped name cannot be mistaken for two tokens. */
  lemma UnescapeEscape(name: string)
    ensures Unescape(Escape(name)) == name && '/' !in Escape(name)
  {
    EscapedTildes(name);
    UnescapedTildes(name);
    EscapedSlashes(ReplaceChar(name, '~', "~0"));
  }

  /** The reference token a step is read as. */
  function Plain(step: Step): string {
    match step
    case Key(name) => name
    case Index(i) => Decimal.Print(i)
  }

  function PlainTokens(path: Path): (tokens: seq<string>)
    ensures |tokens| == |path|
  {
    if path == [] then [] else [Plain(path[0])] + PlainTokens(path[1..])
  }

  lemma {:induction false} NothingMarked(s: string, mark: char, c: char)
    requires '~' !in s
    ensures ReplaceMarked(s, mark, c) == s
  {
    if s != "" {
      NothingMarked(s[1..], mark, c);
      assert s == [s[0]] + s[1..];
    }
  }

  lemma TokenReadsBack(step: Step)
    ensures Unescape(Token(step)) == Plain(step) && '/' !in Token(step)
  {
    match step
    case Key(name) => UnescapeEscape(name);
    case Index(i) =>
      var s := Decimal.Print(i);
      assert forall c <- s :: Decimal.IsDigit(c);
      NothingMarked(s, '1', '/');
      NothingMarked(s, '0', '~');
  }

  lemma {:induction false} PointerCons(step: Step, path: Path)
    ensures Pointer([step] + path) == "/" + Token(step) + Pointer(path)
  {
    var whole, n := [step] + path, |path|;
    assert whole[..n] == if n == 0 then [] else [step] + path[..n - 1];
    if n > 0 {
      PointerCons(step, path[..n - 1]);
      ConcatAssociates("/" + Token(step), Pointer(path[..n - 1]), "/");
      ConcatAssociates("/" + Token(step), Pointer(path[..n - 1]) + "/", Token(path[n - 1]));
    }
  }

  function RawTokens(path: Path): seq<string> {
    if path == [] then [] else [Token(path[0])] + RawTokens(path[1..])
  }

  lemma SplitFirstToken(token: string, rest: string)
    requires '/' !in token && (rest == "" || rest[0] == '/')
    ensures SplitOn(token + rest, '/') == [token] + if rest == "" then [] else SplitOn(rest[1..], '/')
  {
    if rest == "" {
      assert token + rest == token;
      SplitOnNone(token, '/');
    } else {
      assert token + rest == token + ['/'] + rest[1..];
      SplitOnFirst(token, '/', rest[1..]);
    }
  }

  lemma DropSlash(token: string, rest: string)
    ensures ("/" + token + rest)[0] == '/' && ("/" + token + rest)[1..] == token + rest
  {
  }

  lemma {:induction false} SplitPointer(path: Path)
    ensures path == [] <==> Pointer(path) == ""
    ensures path != [] ==> Pointer(path)[0] == '/' && SplitOn(Pointer(path)[1..], '/') == RawTokens(path)
  {
    if path != [] {
      assert path == [path[0]] + path[1..];
      PointerCons(path[0], path[1..]);
      TokenReadsBack(path[0]);
      SplitPointer(path[1..]);
      DropSlash(Token(path[0]), Pointer(path[1..]));
      SplitFirstToken(Token(path[0]), Pointer(path[1..]));
    }
  }

  lemma {:induction false} UnescapeRaw(path: Path)
    ensures UnescapeAll(RawTokens(path)) == PlainTokens(path)
  {
    if path != [] {
      TokenReadsBack(path[0]);
      UnescapeRaw(path[1..]);
      UnescapeCons(Token(path[0]), RawTokens(path[1..]));
    }
  }

  lemma TokensOfPointer(path: Path)
    ensures Tokens(Pointer(path)) == Some(PlainTokens(path))
  {
    SplitPointer(path);
    UnescapeRaw(path);
  }

  lemma UnescapeCons(part: string, parts: seq<string>)
    ensures UnescapeAll([part] + parts) == [Unescape(part)] + UnescapeAll(parts)
  {
    assert ([part] + parts)[1..] == parts;
  }

  /** Every leaf below `v` has a path that extends the path of `v`. */
  lemma {:induction false} LeafPaths(v: Json, path: Path, leaf: Leaf)
    requires leaf in Leaves(v, path)
    ensures path <= leaf.path
    decreases v, 1, 0
  {
    if !v.String? { LeafPathsOf(v, Children(v), path, leaf); }
  }

  lemma {:induction false} LeafPathsOf(v: Json, cs: seq<Child>, path: Path, leaf: Leaf)
    requires (forall c <- cs :: c.value < v) && leaf in LeavesOf(v, cs, path)
    ensures exists c <- cs :: path + [c.step] <= leaf.path && leaf in Leaves(c.value, path + [c.step])
    decreases v, 0, |cs|
  {
    var here := Leaves(cs[0].value, path + [cs[0].step]);
    if leaf in here {
      LeafPaths(cs[0].value, path + [cs[0].step], leaf);
    } else {
      LeafPathsOf(v, cs[1..], path, leaf);
    }
  }

  lemma SelectsOwnStep(v: Json, c: Child, other: Child)
    requires c in Children(v) && other in Children(v)
    ensures Selects(v, Plain(c.step), other.step) <==> other.step == c.step
  {
    match c.step
    case Key(_) =>
    case Index(i) => Decimal.ParsePrint(i);
  }

  /** Following the tokens of a leaf's path from `v` arrives at that leaf. */
  lemma {:induction false} FollowLeaf(v: Json, path: Path, leaf: Leaf)
    requires UniqueNames(v) && leaf in Leaves(v, path)
    ensures path <= leaf.path && Follow(v, PlainTokens(leaf.path[|path|..]), path) == Some(leaf)
    decreases v, 1, 0
  {
    LeafPaths(v, path, leaf);
    if !v.String? {
      LeafPathsOf(v, Children(v), path, leaf);
      var c :| c in Children(v) && path + [c.step] <= leaf.path && leaf in Leaves(c.value, path + [c.step]);
      FollowLeaf(c.value, path + [c.step], leaf);
      var rest := leaf.path[|path|..];
      assert rest[0] == c.step && rest[1..] == leaf.path[|path + [c.step]|..];
      assert PlainTokens(rest)[1..] == PlainTokens(rest[1..]);
      FollowToChild(v, Children(v), PlainTokens(rest), path, c);
    }
  }

  lemma {:induction false} FollowToChild(v: Json, cs: seq<Child>, tokens: seq<string>, path: Path, c: Child)
    requires UniqueNames(v) && tokens != [] && tokens[0] == Plain(c.step)
    requires c in cs && forall d <- cs :: d in Children(v) && d.value < v
    ensures FollowIn(v, cs, tokens, path) == Follow(c.value, tokens[1..], path + [c.step])
  {
    SelectsOwnStep(v, c, cs[0]);
    if cs[0].step == c.step {
      OneChildPerStep(v, c, cs[0]);
    } else {
      FollowToChild(v, cs[1..], tokens, path, c);
    }
  }

  lemma OneChildPerStep(v: Json, a: Child, b: Child)
    requires UniqueNames(v) && a in Children(v) && b in Children(v) && a.step == b.step
    ensures a == b
  {
    var i :| 0 <= i < |Children(v)| && Children(v)[i] == a;
    var j :| 0 <= j < |Children(v)| && Children(v)[j] == b;
    assert !(i < j) && !(j < i);
  }

  /** The pointer of a leaf resolves, by RFC 6901, to precisely that leaf. */
  lemma PointerResolves(v: Json, leaf: Leaf)
    requires UniqueNames(v) && leaf in Leaves(v, [])
    ensures Resolve(v, Pointer(leaf.path)) == Some(leaf)
  {
    TokensOfPointer(leaf.path);
    FollowLeaf(v, [], leaf);
    assert leaf.path[0..] == leaf.path;
  }

  ghost predicate DistinctPaths(leaves: seq<Leaf>) {
    forall i, j :: 0 <= i < j < |leaves| ==> leaves[i].path != leaves[j].path
  }

  lemma DistinctConcat(a: seq<Leaf>, b: seq<Leaf>)
    requires DistinctPaths(a) && DistinctPaths(b) && forall x <- a, y <- b :: x.path != y.path
    ensures DistinctPaths(a + b)
  {
  }

  /** No path occurs twice among the leaves, hence no pointer either. */
  lemma {:induction false} LeavesAreDistinct(v: Json, path: Path)
    requires UniqueNames(v)
    ensures DistinctPaths(Leaves(v, path))
    decreases v, 1, 0
  {
    if !v.String? {
      assert DistinctBranches(Children(v));
      LeavesOfAreDistinct(v, Children(v), path);
    }
  }

  ghost predicate DistinctBranches(cs: seq<Child>) {
    && (forall c <- cs :: UniqueNames(c.value))
    && (forall a, b :: 0 <= a < b < |cs| ==> cs[a].step != cs[b].step)
  }

  lemma DistinctTail(cs: seq<Child>)
    requires DistinctBranches(cs) && cs != []
    ensures DistinctBranches(cs[1..]) && UniqueNames(cs[0].value)
    ensures forall i :: 0 < i < |cs| ==> cs[i].step != cs[0].step
  {
    assert cs[0] in cs;
  }

  lemma {:induction false} LeavesOfAreDistinct(v: Json, cs: seq<Child>, path: Path)
    requires DistinctBranches(cs) && forall c <- cs :: c.value < v
    ensures DistinctPaths(LeavesOf(v, cs, path))
    decreases v, 0, |cs|
  {
    if cs != [] {
      var here, rest := Leaves(cs[0].value, path + [cs[0].step]), LeavesOf(v, cs[1..], path);
      DistinctTail(cs);
      LeavesAreDistinct(cs[0].value, path + [cs[0].step]);
      LeavesOfAreDistinct(v, cs[1..], path);
      forall x <- here, y <- rest ensures x.path != y.path { BranchesDiffer(v, cs, path, x, y); }
      DistinctConcat(here, rest);
    }
  }

  /** Leaves under different children differ in the step taken from `v`. */
  lemma BranchesDiffer(v: Json, cs: seq<Child>, path: Path, a: Leaf, b: Leaf)
    requires cs != [] && (forall c <- cs :: c.value < v) && forall i :: 0 < i < |cs| ==> cs[i].step != cs[0].step
    requires a in Leaves(cs[0].value, path + [cs[0].step]) && b in LeavesOf(v, cs[1..], path)
    ensures a.path != b.path
  {
    LeafPaths(cs[0].value, path + [cs[0].step], a);
    LeafPathsOf(v, cs[1..], path, b);
    var c :| c in cs[1..] && path + [c.step] <= b.path;
    assert a.path[|path|] == cs[0].step && b.path[|path|] == c.step;
  }

  lemma PointersAreDistinct(v: Json, i: nat, j: nat)
    requires UniqueNames(v) && i < j < |Leaves(v, [])|
    ensures Pointer(Leaves(v, [])[i].path) != Pointer(Leaves(v, [])[j].path)
  {
    LeavesAreDistinct(v, []);
    PointerResolves(v, Leaves(v, [])[i]);
    PointerResolves(v, Leaves(v, [])[j]);
  }
}
