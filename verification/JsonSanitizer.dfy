/** The proxy's JSON sanitizer: every string leaf is rewritten, keys and numbers must not change. */
module JsonSanitizing {
  import opened Seqs
  import opened Json

  type Category = string

  /** A detector-backed sanitizer; traced results may carry several categories. */
  datatype Sanitizer = Sanitizer(plain: string -> string, traced: string -> (string, seq<Category>))

  datatype Observation = Observation(category: Category, pointer: string)

  function TextOf(z: Sanitizer): Leaf -> string { (l: Leaf) => z.traced(l.text).0 }

  function Noted(categories: seq<Category>, pointer: string): seq<Observation> {
    seq(|categories|, i requires 0 <= i < |categories| => Observation(categories[i], pointer))
  }

  /** One observation per category of each leaf, in document order, at the leaf's pointer. */
  function Observed(z: Sanitizer, leaves: seq<Leaf>): seq<Observation> {
    if leaves == [] then []
    else Noted(z.traced(leaves[0].text).1, Pointer(leaves[0].path)) + Observed(z, leaves[1..])
  }

  predicate Unchanged(z: Sanitizer, texts: seq<string>) { forall t <- texts :: z.plain(t) == t }

  lemma {:induction false} ObservedConcat(z: Sanitizer, a: seq<Leaf>, b: seq<Leaf>)
    ensures Observed(z, a + b) == Observed(z, a) + Observed(z, b)
  {
    if a == [] {
      assert a + b == b;
    } else {
      assert (a + b)[1..] == a[1..] + b;
      ObservedConcat(z, a[1..], b);
    }
  }

  /** The first `i` children of a container have been sanitized. */
  ghost predicate SoFar(z: Sanitizer, v: Json, path: Path, i: nat, values: seq<Json>, observations: seq<Observation>)
  {
    && i == |values| <= |Children(v)|
    && (forall k :: 0 <= k < i ==> values[k] == MapAt(TextOf(z), Children(v)[k].value, path + [Children(v)[k].step]))
    && Unchanged(z, FixedTextsOf(v, Children(v)[..i]))
    && observations == Observed(z, LeavesOf(v, Children(v)[..i], path))
  }

  lemma SoFarStep(z: Sanitizer, v: Json, path: Path, i: nat, values: seq<Json>, observations: seq<Observation>)
    requires SoFar(z, v, path, i, values, observations) && i < |Children(v)|
    requires var c := Children(v)[i]; Unchanged(z, FixedTexts(c.value)) && (c.step.Key? ==> z.plain(c.step.name) == c.step.name)
    ensures var c := Children(v)[i];
            SoFar(z, v, path, i + 1, values + [MapAt(TextOf(z), c.value, path + [c.step])],
                  observations + Observed(z, Leaves(c.value, path + [c.step])))
  {
    var cs, c := Children(v), Children(v)[i];
    assert cs[..i + 1] == cs[..i] + [c];
    FixedTextsOfAppend(v, cs[..i], c);
    LeavesOfAppend(v, cs[..i], c, path);
    ObservedConcat(z, LeavesOf(v, cs[..i], path), Leaves(c.value, path + [c.step]));
  }

  lemma SoFarFails(z: Sanitizer, v: Json, i: nat)
    requires i < |Children(v)|
    requires var c := Children(v)[i]; !Unchanged(z, FixedTexts(c.value)) || (c.step.Key? && z.plain(c.step.name) != c.step.name)
    ensures !Unchanged(z, FixedTexts(v))
  {
    var cs, c := Children(v), Children(v)[i];
    assert cs[..i + 1] == cs[..i] + [c];
    FixedTextsOfAppend(v, cs[..i], c);
    KeepsFixed(v, i);
    var t :| z.plain(t) != t && (t in FixedTexts(c.value) || (c.step.Key? && t == c.step.name));
    assert t in FixedTextsOf(v, cs[..i + 1]);
  }

  lemma SoFarDone(z: Sanitizer, v: Json, path: Path, values: seq<Json>, observations: seq<Observation>)
    requires !v.String? && !v.Number? && SoFar(z, v, path, |Children(v)|, values, observations)
    ensures Unchanged(z, FixedTexts(v))
    ensures WithValues(v, values) == MapAt(TextOf(z), v, path) && observations == Observed(z, Leaves(v, path))
  {
    var cs, f := Children(v), TextOf(z);
    assert cs[..|cs|] == cs;
    assert values == seq(|cs|, i requires 0 <= i < |cs| => MapAt(f, cs[i].value, path + [cs[i].step]));
  }

  /**
   * Fails exactly when some member name or number would change. Otherwise the document keeps its
   * shape, every string is the sanitizer's, and the observations point at the leaves they are from.
   */
  method SanitizeTextualLeaves(z: Sanitizer, v: Json, pointer: string, ghost path: Path)
    returns (r: Option<(Json, seq<Observation>)>)
    requires pointer == Pointer(path)
    ensures r.Some? <==> Unchanged(z, FixedTexts(v))
    ensures r.Some? ==> r.value == (MapAt(TextOf(z), v, path), Observed(z, Leaves(v, path)))
    decreases v, 1
  {
    if v.String? {
      var (replacement, categories) := z.traced(v.text);
      LeafObserved(z, v, path);
      return Some((String(replacement), Noted(categories, pointer)));
    } else if v.Number? {
      if z.plain(v.text) != v.text { return None; }
      NoStrings(z, v, path);
      return Some((v, []));
    } else {
      r := SanitizeChildren(z, v, pointer, path);
    }
  }

  lemma LeafObserved(z: Sanitizer, v: Json, path: Path)
    requires v.String?
    ensures FixedTexts(v) == [] && Observed(z, Leaves(v, path)) == Noted(z.traced(v.text).1, Pointer(path))
  {
    assert Leaves(v, path)[1..] == [];
  }

  lemma NoStrings(z: Sanitizer, v: Json, path: Path)
    requires v.Number?
    ensures MapAt(TextOf(z), v, path) == v && Observed(z, Leaves(v, path)) == []
  {
  }

  /** Arrays and objects, child by child; null and booleans have none. */
  method SanitizeChildren(z: Sanitizer, v: Json, pointer: string, ghost path: Path)
    returns (r: Option<(Json, seq<Observation>)>)
    requires pointer == Pointer(path) && !v.String? && !v.Number?
    ensures r.Some? <==> Unchanged(z, FixedTexts(v))
    ensures r.Some? ==> r.value == (MapAt(TextOf(z), v, path), Observed(z, Leaves(v, path)))
    decreases v, 0
  {
    var cs := Children(v);
    var values: seq<Json>, observations: seq<Observation> := [], [];
    assert cs[..0] == [];
    for i := 0 to |cs|
      invariant SoFar(z, v, path, i, values, observations)
    {
      var c := cs[i];
      if c.step.Key? && z.plain(c.step.name) != c.step.name {
        SoFarFails(z, v, i);
        return None;
      }
      PointerSnoc(path, c.step);
      var child := SanitizeTextualLeaves(z, c.value, pointer + "/" + Token(c.step), path + [c.step]);
      if child.None? {
        SoFarFails(z, v, i);
        return None;
      }
      SoFarStep(z, v, path, i, values, observations);
      values := values + [child.value.0];
      observations := observations + child.value.1;
    }
    SoFarDone(z, v, path, values, observations);
    return Some((WithValues(v, values), observations));
  }

  /** The fixed texts of a container include those of its first children. */
  lemma KeepsFixed(v: Json, i: nat)
    requires i < |Children(v)| && !v.Number?
    ensures forall t <- FixedTextsOf(v, Children(v)[..i + 1]) :: t in FixedTexts(v)
  {
    FixedTextsOfPrefix(v, Children(v), i + 1);
  }

  lemma {:induction false} FixedTextsOfPrefix(v: Json, cs: seq<Child>, n: nat)
    requires n <= |cs| && forall c <- cs :: c.value < v
    ensures forall t <- FixedTextsOf(v, cs[..n]) :: t in FixedTextsOf(v, cs)
  {
    if n > 0 {
      assert cs[..n][1..] == cs[1..][..n - 1];
      FixedTextsOfPrefix(v, cs[1..], n - 1);
    }
  }

  /** What sanitizing a whole document returns. */
  function SanitizedJson(z: Sanitizer, v: Json): Option<(Json, seq<Observation>)> {
    if Unchanged(z, FixedTexts(v)) then Some((MapAt(TextOf(z), v, []), Observed(z, Leaves(v, [])))) else None
  }

  method SanitizeJson(z: Sanitizer, v: Json) returns (r: Option<(Json, seq<Observation>)>)
    ensures r == SanitizedJson(z, v)
  {
    r := SanitizeTextualLeaves(z, v, "", []);
  }

  /** `w` has the shape of `v`, and each of its strings is what the sanitizer makes of the one at its place. */
  ghost predicate Sanitizes(z: Sanitizer, v: Json, w: Json) {
    var before, after := Leaves(v, []), Leaves(w, []);
    && Erased(w) == Erased(v) && |after| == |before|
    && forall i :: 0 <= i < |before| ==> after[i] == Leaf(before[i].path, z.traced(before[i].text).0)
  }

  lemma SanitizedIsSanitizing(z: Sanitizer, v: Json)
    requires SanitizedJson(z, v).Some?
    ensures Sanitizes(z, v, SanitizedJson(z, v).value.0)
  {
    MappedShape(TextOf(z), v, []);
    MappedLeaves(TextOf(z), v, []);
  }

  // ---- Shape and pointers -----------------------------------------------------------------

  /** Every category of every leaf is observed at the leaf's pointer. */
  lemma {:induction false} EveryCategoryIsObserved(z: Sanitizer, leaves: seq<Leaf>, i: nat, category: Category)
    requires i < |leaves| && category in z.traced(leaves[i].text).1
    ensures Observation(category, Pointer(leaves[i].path)) in Observed(z, leaves)
  {
    var categories := z.traced(leaves[0].text).1;
    if i == 0 {
      var k :| 0 <= k < |categories| && categories[k] == category;
      assert Noted(categories, Pointer(leaves[0].path))[k] == Observation(category, Pointer(leaves[0].path));
    } else {
      EveryCategoryIsObserved(z, leaves[1..], i - 1, category);
    }
  }

  /** Every observation's pointer resolves in the input to a leaf that has the observed category. */
  lemma {:induction false} ObservationsResolve(z: Sanitizer, v: Json, leaves: seq<Leaf>, o: Observation)
    requires UniqueNames(v) && (forall l <- leaves :: l in Leaves(v, [])) && o in Observed(z, leaves)
    ensures exists l <- leaves :: Resolve(v, o.pointer) == Some(l) && o.category in z.traced(l.text).1
  {
    var here := Noted(z.traced(leaves[0].text).1, Pointer(leaves[0].path));
    if o in here {
      assert leaves[0] in leaves;
      PointerResolves(v, leaves[0]);
    } else {
      ObservationsResolve(z, v, leaves[1..], o);
    }
  }
}
