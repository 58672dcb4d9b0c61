/**
 * The abstract element model that stands in for the browser DOM: an element record with a tag,
 * an id, a class list, an attribute map, the `href`/`src`/`placeholder`/`value` properties and an
 * ordered list of child nodes, each either a text node or an element.  Also the few string
 * operations of the DOM and of JavaScript that the core relies on.
 */
module Dom {

  import opened Wrappers

  /** A child node of an element: a text node holding its data, or an element. */
  datatype ChildNode = Text(data: string) | Elem(element: Element)

  /** ASCII upper-casing, as HTML applies to the `tagName` of an element it creates. */
  function UpperChar(c: char): char {
    if 'a' <= c <= 'z' then (c as int - 'a' as int + 'A' as int) as char else c
  }

  /** ASCII lower-casing, as `toLowerCase` does for the ASCII letters of a tag name. */
  function LowerChar(c: char): char {
    if 'A' <= c <= 'Z' then (c as int - 'A' as int + 'a' as int) as char else c
  }

  function AsciiUpper(s: string): (r: string)
    ensures |r| == |s|
    ensures forall i | 0 <= i < |s| :: r[i] == UpperChar(s[i])
  {
    seq(|s|, i requires 0 <= i < |s| => UpperChar(s[i]))
  }

  function AsciiLower(s: string): (r: string)
    ensures |r| == |s|
    ensures forall i | 0 <= i < |s| :: r[i] == LowerChar(s[i])
  {
    seq(|s|, i requires 0 <= i < |s| => LowerChar(s[i]))
  }

  /** Lower-casing forgets whether a name was upper-cased first: `AsciiUpper` keeps every local name's identity. */
  lemma LowerOfUpper(s: string)
    ensures AsciiLower(AsciiUpper(s)) == AsciiLower(s)
  {
    assert forall i | 0 <= i < |s| :: LowerChar(UpperChar(s[i])) == LowerChar(s[i]);
  }

  predicate NoDuplicates<T(==)>(s: seq<T>) {
    forall i, j | 0 <= i < j < |s| :: s[i] != s[j]
  }

  /** A duplicate-free sequence has as many distinct elements as entries. */
  lemma {:induction false} DistinctCount<T>(s: seq<T>)
    requires NoDuplicates(s)
    ensures |set x | x in s| == |s|
  {
    if s != [] {
      var init := s[..|s| - 1];
      var last := s[|s| - 1];
      assert NoDuplicates(init);
      DistinctCount(init);
      assert last !in init;
      assert (set x | x in s) == (set x | x in init) + {last} by {
        assert s == init + [last];
      }
    }
  }

  /** DOMTokenList `add`: a token already present is not added twice. */
  function AddToken(list: seq<string>, token: string): seq<string> {
    if token in list then list else list + [token]
  }

  /**
   * The class list an element ends up with when the names are added one at a time, skipping empty
   * names (the source guards `classList.add` with `c && ...`) and duplicates (DOMTokenList
   * semantics).  Setting `className` to the names joined by spaces gives the same list, since
   * class names never contain white space.
   */
  function ClassTokens(names: seq<string>): (r: seq<string>)
    ensures NoDuplicates(r)
    ensures "" !in r
    ensures forall x :: x in r <==> x in names && x != ""
  {
    if names == [] then []
    else
      var init := ClassTokens(names[..|names| - 1]);
      var c := names[|names| - 1];
      assert names == names[..|names| - 1] + [c];
      if c == "" then init else AddToken(init, c)
  }

  /** A list that is already a token set comes out of `ClassTokens` unchanged, in the same order. */
  lemma {:induction false} ClassTokensOfTokenSet(names: seq<string>)
    requires NoDuplicates(names) && "" !in names
    ensures ClassTokens(names) == names
  {
    if names != [] {
      var init := names[..|names| - 1];
      var c := names[|names| - 1];
      assert NoDuplicates(init);
      ClassTokensOfTokenSet(init);
      assert c !in init;
      assert init + [c] == names;
    }
  }

  /** Adding more names never disturbs the tokens already collected: the earlier list is a prefix. */
  lemma {:induction false} ClassTokensExtends(names: seq<string>, more: seq<string>)
    ensures ClassTokens(names) <= ClassTokens(names + more)
  {
    if more != [] {
      var init := more[..|more| - 1];
      ClassTokensExtends(names, init);
      var longer := names + more;
      assert longer[..|longer| - 1] == names + init;
      var before := ClassTokens(names + init);
      assert ClassTokens(longer) == before || ClassTokens(longer) == before + [longer[|longer| - 1]];
      assert before <= ClassTokens(longer);
      var prefix := ClassTokens(names);
      assert forall i | 0 <= i < |prefix| :: prefix[i] == before[i] == ClassTokens(longer)[i];
    } else {
      assert names + more == names;
    }
  }

  /** JavaScript's `Array.prototype.join`. */
  function Join(parts: seq<string>, separator: string): string {
    if parts == [] then ""
    else if |parts| == 1 then parts[0]
    else Join(parts[..|parts| - 1], separator) + separator + parts[|parts| - 1]
  }

  /** Joining two or more parts is the first part, the separator, and the join of the rest. */
  lemma {:induction false} JoinFront(parts: seq<string>, separator: string)
    requires |parts| >= 2
    ensures Join(parts, separator) == parts[0] + separator + Join(parts[1..], separator)
    decreases |parts|
  {
    var n := |parts|;
    if n > 2 {
      var init := parts[..n - 1];
      JoinFront(init, separator);
      assert init[1..] == parts[1..][..n - 2];
      assert init[0] == parts[0];
      assert Join(parts, separator) == Join(init, separator) + separator + parts[n - 1];
      assert Join(parts[1..], separator) == Join(parts[1..][..n - 2], separator) + separator + parts[n - 1];
    }
  }

  /** A join whose first part is non-empty starts with that part's first character. */
  lemma {:induction false} JoinFirst(parts: seq<string>, separator: string)
    requires |parts| > 0 && |parts[0]| > 0
    ensures |Join(parts, separator)| > 0 && Join(parts, separator)[0] == parts[0][0]
    decreases |parts|
  {
    if |parts| > 1 {
      JoinFirst(parts[..|parts| - 1], separator);
    }
  }

  /** `part` occurs in `s` starting at index `i`. */
  predicate OccursAt(s: string, part: string, i: int) {
    0 <= i <= |s| - |part| && s[i..i + |part|] == part
  }

  /** String containment, JavaScript's `includes`. */
  predicate Contains(s: string, part: string) {
    exists i | 0 <= i <= |s| :: OccursAt(s, part, i)
  }

  /** The decimal digit for `d`. */
  function DigitChar(d: nat): (c: char)
    requires d < 10
    ensures '0' <= c <= '9'
  {
    ('0' as int + d) as char
  }

  /** A number printed in decimal, as JavaScript prints a non-negative integer below 10^21. */
  function NatToString(n: nat): (r: string)
    ensures |r| >= 1
    ensures forall i | 0 <= i < |r| :: '0' <= r[i] <= '9'
  {
    if n < 10 then [DigitChar(n)] else NatToString(n / 10) + [DigitChar(n % 10)]
  }

  /** The value of a string of decimal digits. */
  function ParseDigits(s: string): nat
    requires forall i | 0 <= i < |s| :: '0' <= s[i] <= '9'
  {
    if s == [] then 0 else ParseDigits(s[..|s| - 1]) * 10 + (s[|s| - 1] as int - '0' as int)
  }

  /** Printing then reading back a number gives the number. */
  lemma {:induction false} ParseNatToString(n: nat)
    ensures ParseDigits(NatToString(n)) == n
  {
    if n >= 10 {
      ParseNatToString(n / 10);
      var r := NatToString(n);
      assert r[..|r| - 1] == NatToString(n / 10);
    }
  }

  /**
   * An element.  Only the state the core reads or writes is kept.  Identity matters (a descriptor
   * holds a reference into the tree, and merges happen in place), so this is a class.
   */
  class Element {
    var tagName: string
    var id: string
    var classList: seq<string>
    var attributes: map<string, string>
    var href: string
    var src: string
    var placeholder: string
    var value: string
    var childNodes: seq<ChildNode>
    var parentElement: Element?

    /** `document.createElement(localName)` in an HTML document: a detached, empty element. */
    constructor (localName: string)
      ensures tagName == AsciiUpper(localName)
      ensures id == "" && classList == [] && attributes == map[]
      ensures href == "" && src == "" && placeholder == "" && value == ""
      ensures childNodes == [] && parentElement == null
    {
      tagName := AsciiUpper(localName);
      id := "";
      classList := [];
      attributes := map[];
      href, src, placeholder, value := "", "", "", "";
      childNodes := [];
      parentElement := null;
    }

    /** `getAttribute(name)`: the value, or `null` when the attribute is absent. */
    function GetAttribute(name: string): (r: Option<string>)
      reads this
      ensures r.None? <==> name !in attributes
      ensures r.Some? ==> r.value == attributes[name]
    {
      if name in attributes then Some(attributes[name]) else None
    }

    /** `classList.add(token)` for a non-empty token (an empty one makes the DOM throw). */
    method AddClass(token: string)
      requires token != ""
      modifies this`classList
      ensures classList == AddToken(old(classList), token)
    {
      classList := AddToken(classList, token);
    }

    /** `append(child)` for an element that is not yet in any tree: it becomes the last child. */
    method Append(child: Element)
      requires child != this && child.parentElement == null
      modifies this`childNodes, child`parentElement
      ensures childNodes == old(childNodes) + [Elem(child)]
      ensures child.parentElement == this
    {
      childNodes := childNodes + [Elem(child)];
      child.parentElement := this;
    }

    /** `append(data)` with a string: a new text node becomes the last child. */
    method AppendText(data: string)
      modifies this`childNodes
      ensures childNodes == old(childNodes) + [Text(data)]
    {
      childNodes := childNodes + [Text(data)];
    }
  }

}
