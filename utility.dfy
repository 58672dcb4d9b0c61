/**
 * Element comparison, in-place merging and first-text-node replacement (src/Utility.ts).
 */
module Utility {

  import opened Wrappers
  import opened Dom

  /** The `differingClasses` counter: how many classes of `xs` do not occur in `ys`. */
  function DifferingClasses(xs: seq<string>, ys: seq<string>): (n: nat)
    ensures n <= |xs|
    ensures n == 0 <==> forall c :: c in xs ==> c in ys
  {
    if xs == [] then 0
    else
      var init := xs[..|xs| - 1];
      assert xs == init + [xs[|xs| - 1]];
      DifferingClasses(init, ys) + (if xs[|xs| - 1] in ys then 0 else 1)
  }

  /**
   * `elementsAreComparable`: the equality used for deduplication.  Tags are compared ignoring
   * ASCII case, ids exactly, class lists by length and then by containment of `a`'s classes in
   * `b`'s.  Attributes play no part.
   */
  predicate ElementsAreComparable(a: Element, b: Element)
    reads a, b
    ensures ElementsAreComparable(a, b) <==>
      && AsciiLower(a.tagName) == AsciiLower(b.tagName)
      && a.id == b.id
      && |a.classList| == |b.classList|
      && forall c :: c in a.classList ==> c in b.classList
  {
    if AsciiLower(a.tagName) != AsciiLower(b.tagName) || a.id != b.id || |a.classList| != |b.classList| then
      false
    else
      DifferingClasses(a.classList, b.classList) == 0
  }

  /** Every element is comparable to itself. */
  lemma ComparableReflexive(a: Element)
    ensures ElementsAreComparable(a, a)
  {
  }

  /** Two duplicate-free lists of equal length, one contained in the other, hold the same classes. */
  lemma {:induction false} EqualLengthContainment(xs: seq<string>, ys: seq<string>)
    requires NoDuplicates(xs) && NoDuplicates(ys) && |xs| == |ys|
    requires forall c :: c in xs ==> c in ys
    ensures (set c | c in xs) == (set c | c in ys)
  {
    var sx := set c | c in xs;
    var sy := set c | c in ys;
    DistinctCount(xs);
    DistinctCount(ys);
    assert sx <= sy;
    var rest := sy - sx;
    assert sy == sx + rest && sx !! rest;
    assert |rest| == 0;
  }

  /**
   * For class lists without duplicates (as every DOM class list is), comparability is exactly
   * "same tag ignoring case, same id, same set of classes".
   */
  lemma {:induction false} ComparableIffSameClassSet(a: Element, b: Element)
    requires NoDuplicates(a.classList) && NoDuplicates(b.classList)
    ensures ElementsAreComparable(a, b) <==>
      && AsciiLower(a.tagName) == AsciiLower(b.tagName)
      && a.id == b.id
      && (set c | c in a.classList) == (set c | c in b.classList)
  {
    var sa := set c | c in a.classList;
    var sb := set c | c in b.classList;
    if sa == sb {
      DistinctCount(a.classList);
      DistinctCount(b.classList);
      forall c | c in a.classList ensures c in b.classList {
        assert c in sa;
      }
    }
    if ElementsAreComparable(a, b) {
      EqualLengthContainment(a.classList, b.classList);
    }
  }

  /** For duplicate-free class lists comparability is symmetric. */
  lemma {:induction false} ComparableSymmetric(a: Element, b: Element)
    requires NoDuplicates(a.classList) && NoDuplicates(b.classList)
    ensures ElementsAreComparable(a, b) == ElementsAreComparable(b, a)
  {
    ComparableIffSameClassSet(a, b);
    ComparableIffSameClassSet(b, a);
  }

  /** Comparability is transitive. */
  lemma ComparableTransitive(a: Element, b: Element, c: Element)
    requires ElementsAreComparable(a, b) && ElementsAreComparable(b, c)
    ensures ElementsAreComparable(a, c)
  {
  }

  /** JavaScript truthiness of a `getAttribute` result: present and non-empty. */
  predicate Truthy(v: Option<string>) {
    v.Some? && v.value != ""
  }

  /** The two id checks of `mergeElements`: tags that differ, or two non-empty ids that differ. */
  predicate TagOrIdConflict(sourceTag: string, sourceId: string, destinationTag: string, destinationId: string) {
    sourceTag != destinationTag || (sourceId != "" && destinationId != "" && sourceId != destinationId)
  }

  /** The `type` check of `mergeElements`: two non-empty `type` attributes that differ. */
  predicate TypeConflict(sourceType: Option<string>, destinationType: Option<string>) {
    Truthy(sourceType) && Truthy(destinationType) && sourceType.value != destinationType.value
  }

  /**
   * `mergeElements(source, destination)`: copy the source's id, `type` attribute and classes into
   * the destination in place.  Returns `null` on a tag or id conflict (the destination untouched)
   * and on a `type` conflict (by then the source's non-empty id is already written).  The class
   * list of a successful merge is the duplicate-free union, source classes first.
   */
  method MergeElements(source: Element, destination: Element) returns (r: Element?)
    modifies destination`id, destination`attributes, destination`classList
    ensures TagOrIdConflict(old(source.tagName), old(source.id), old(destination.tagName), old(destination.id)) ==>
      r == null && unchanged(destination)
    ensures !TagOrIdConflict(old(source.tagName), old(source.id), old(destination.tagName), old(destination.id)) ==>
      destination.id == (if old(source.id) != "" then old(source.id) else old(destination.id))
    ensures !TagOrIdConflict(old(source.tagName), old(source.id), old(destination.tagName), old(destination.id)) &&
            TypeConflict(old(source.GetAttribute("type")), old(destination.GetAttribute("type"))) ==>
      r == null && destination.attributes == old(destination.attributes) && destination.classList == old(destination.classList)
    ensures !TagOrIdConflict(old(source.tagName), old(source.id), old(destination.tagName), old(destination.id)) &&
            !TypeConflict(old(source.GetAttribute("type")), old(destination.GetAttribute("type"))) ==>
      && r == destination
      && destination.attributes ==
           (if Truthy(old(source.GetAttribute("type"))) then old(destination.attributes)["type" := old(source.attributes["type"])]
            else old(destination.attributes))
      && destination.classList ==
           (if old(source.classList) == [] && old(destination.classList) == [] then old(destination.classList)
            else ClassTokens(old(source.classList) + old(destination.classList)))
    ensures source != destination ==> unchanged(source)
  {
    if source.tagName != destination.tagName {
      return null;
    }
    if source.id != "" && destination.id != "" && source.id != destination.id {
      return null;
    }
    if source.id != "" {
      destination.id := source.id;
    }
    var mergeFromType := source.GetAttribute("type");
    var mergeToType := destination.GetAttribute("type");
    if Truthy(mergeFromType) && Truthy(mergeToType) && mergeFromType.value != mergeToType.value {
      return null;
    }
    if Truthy(mergeFromType) {
      destination.attributes := destination.attributes["type" := mergeFromType.value];
    }
    if |source.classList| > 0 || |destination.classList| > 0 {
      destination.classList := ClassTokens(source.classList + destination.classList);
    }
    r := destination;
  }

  /**
   * The merged class list: duplicate-free, holding exactly the classes of both lists, and starting
   * with the source's own classes in their order.
   */
  lemma MergedClassesSourceFirst(sourceClasses: seq<string>, destinationClasses: seq<string>)
    requires NoDuplicates(sourceClasses) && "" !in sourceClasses
    ensures var merged := ClassTokens(sourceClasses + destinationClasses);
      && NoDuplicates(merged)
      && sourceClasses <= merged
      && forall c :: c in merged <==> (c in sourceClasses || c in destinationClasses) && c != ""
  {
    ClassTokensOfTokenSet(sourceClasses);
    ClassTokensExtends(sourceClasses, destinationClasses);
  }

  /** The index of the first text child (`Array.find` over `childNodes`), if any. */
  function FirstTextIndex(nodes: seq<ChildNode>): (r: Option<nat>)
    ensures r.Some? ==> r.value < |nodes| && nodes[r.value].Text? && forall j | 0 <= j < r.value :: !nodes[j].Text?
    ensures r.None? ==> forall j | 0 <= j < |nodes| :: !nodes[j].Text?
  {
    if nodes == [] then None
    else if nodes[0].Text? then Some(0)
    else
      match FirstTextIndex(nodes[1..])
      case Some(i) => Some(i + 1)
      case None => None
  }

  /**
   * The child list after `replaceTextNode(element, value)`: the first text child holds `value` and
   * every other child stays; without a text child, `value` is a new last child.
   */
  function WithText(nodes: seq<ChildNode>, value: string): (r: seq<ChildNode>)
    ensures FirstTextIndex(nodes).Some? ==>
      var i := FirstTextIndex(nodes).value;
      |r| == |nodes| && r[i] == Text(value) && forall j | 0 <= j < |r| && j != i :: r[j] == nodes[j]
    ensures FirstTextIndex(nodes).None? ==>
      |r| == |nodes| + 1 && r[..|nodes|] == nodes && r[|nodes|] == Text(value)
  {
    match FirstTextIndex(nodes)
    case Some(i) => nodes[i := Text(value)]
    case None => nodes + [Text(value)]
  }

  /**
   * `replaceTextNode(element, value)`: the first text child gets `value` as its text, every other
   * child and the child count staying as they were; without a text child, `value` is appended as
   * a new last child.
   */
  method ReplaceTextNode(element: Element, value: string)
    modifies element`childNodes
    ensures element.childNodes == WithText(old(element.childNodes), value)
    ensures FirstTextIndex(old(element.childNodes)).Some? ==>
      |element.childNodes| == |old(element.childNodes)| &&
      forall j | 0 <= j < |element.childNodes| && j != FirstTextIndex(old(element.childNodes)).value ::
        element.childNodes[j] == old(element.childNodes)[j]
    ensures FirstTextIndex(old(element.childNodes)).None? ==>
      element.childNodes == old(element.childNodes) + [Text(value)]
  {
    var textNode := FirstTextIndex(element.childNodes);
    if textNode.Some? {
      element.childNodes := element.childNodes[textNode.value := Text(value)];
    } else {
      element.AppendText(value);
    }
  }

  /** After the replacement, the element's first text child holds exactly `value`. */
  lemma {:induction false} WithTextIsFirstText(nodes: seq<ChildNode>, value: string)
    ensures var r := WithText(nodes, value);
      FirstTextIndex(r).Some? && r[FirstTextIndex(r).value] == Text(value)
  {
    var r := WithText(nodes, value);
    match FirstTextIndex(nodes)
    case Some(i) =>
      assert r[i] == Text(value);
      FirstTextIndexUnique(r, i);
    case None =>
      assert r[|nodes|] == Text(value);
      FirstTextIndexUnique(r, |nodes|);
  }

  /** A text child with no text child before it is the one `FirstTextIndex` finds. */
  lemma FirstTextIndexUnique(nodes: seq<ChildNode>, i: nat)
    requires i < |nodes| && nodes[i].Text? && forall j | 0 <= j < i :: !nodes[j].Text?
    ensures FirstTextIndex(nodes) == Some(i)
  {
  }

  /** Replacing twice is replacing once with the later value: the last content assignment wins. */
  lemma {:induction false} WithTextLastWriteWins(nodes: seq<ChildNode>, first: string, second: string)
    ensures WithText(WithText(nodes, first), second) == WithText(nodes, second)
  {
    var once := WithText(nodes, first);
    match FirstTextIndex(nodes)
    case Some(i) =>
      FirstTextIndexUnique(once, i);
    case None =>
      FirstTextIndexUnique(once, |nodes|);
  }
}
