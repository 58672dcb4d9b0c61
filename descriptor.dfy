/**
 * The Descriptor builder (src/Descriptor.ts): one simple-selector node of a parsed selector turned
 * into an element description, with its combinator, its positional constraint and a validity flag,
 * plus the `content` property that places a declared content string on the element.
 */
module Descriptors {

  import opened Wrappers
  import opened Dom
  import Utility

  // ---------------------------------------------------------------------------------------------
  // The selector parser's AST node, given as input data.

  datatype TagNode = TagName(name: string) | WildcardTag

  datatype AttributeValue = StringValue(value: string) | Substitution(name: string)

  datatype AstAttribute = AstAttribute(name: string, value: Option<AttributeValue>)

  datatype PseudoArgument = Formula(a: int, b: int) | OtherArgument

  datatype AstPseudoClass = AstPseudoClass(name: string, argument: Option<PseudoArgument>)

  /** An absent `ids`, `classNames`, `attributes` or `pseudoClasses` list is an empty sequence here. */
  datatype AstRule = AstRule(
    tag: Option<TagNode>,
    ids: seq<string>,
    classNames: seq<string>,
    attributes: seq<AstAttribute>,
    pseudoClasses: seq<AstPseudoClass>,
    pseudoElement: Option<string>,
    combinator: Option<string>)

  // ---------------------------------------------------------------------------------------------
  // Positions.

  datatype From = Start | End

  datatype PositionType = Child | OfType

  datatype Position = Position(explicit: bool, from: From, index: nat, positionType: PositionType)

  /** The field initialiser of `position`: not explicit, counted from the end, index 1, any child. */
  const DefaultPosition := Position(false, End, 1, Child)

  /** The eight positioning pseudo-classes a descriptor accepts. */
  const PositioningPseudoClasses: seq<string> := [
    "first-child", "nth-child", "nth-last-child", "last-child",
    "first-of-type", "nth-of-type", "nth-last-of-type", "last-of-type"
  ]

  /**
   * `parsePositionFormula(a, b)` for integer operands: `b` for a pure offset (`a = 0`) with `b`
   * not negative, and no position (the source's `false`) for everything else.
   */
  function ParsePositionFormula(a: int, b: int): (r: Option<nat>)
    ensures r.Some? <==> a == 0 && b >= 0
    ensures r.Some? ==> r.value == b
  {
    if a < 0 || b < 0 then None
    else if a == 0 then Some(b)
    else None
  }

  /** The value `a·n + b` of a position formula at `n`. */
  function FormulaValue(a: int, b: int, n: nat): int {
    a * n + b
  }

  /**
   * The meaning of `an+b` in Selectors Level 3, section 6.6.5.2: position `k` (1-based) is
   * selected when `a·n + b = k` for some `n >= 0`.
   */
  ghost predicate FormulaSelects(a: int, b: int, k: nat) {
    exists n: nat :: FormulaValue(a, b, n) == k
  }

  /** An accepted formula selects exactly one position: the one it returns. */
  lemma AcceptedFormulaSelectsOnlyItsPosition(a: int, b: int, k: nat)
    requires ParsePositionFormula(a, b).Some?
    ensures FormulaSelects(a, b, k) <==> k == ParsePositionFormula(a, b).value
  {
    if k == b {
      assert FormulaValue(a, b, 0) == k;
    }
  }

  /** A formula with `a > 0` is rejected, and rightly: it selects more than one position. */
  lemma PositiveStepSelectsSeveralPositions(a: int, b: int)
    requires a > 0 && b >= 0
    ensures ParsePositionFormula(a, b).None?
    ensures FormulaSelects(a, b, b + a) && FormulaSelects(a, b, b + 2 * a) && b + a != b + 2 * a
  {
    assert FormulaValue(a, b, 1) == b + a;
    assert FormulaValue(a, b, 2) == b + 2 * a;
  }

  /**
   * The position part of the constructor as a value: whether it makes the descriptor invalid,
   * and the position it leaves.  With no pseudo-class the default position stays; more than one
   * pseudo-class, or a name outside the eight, is invalid; otherwise the position is explicit,
   * counted from the end exactly when the name contains "last", restricted to the tag exactly
   * when it contains "type", and an `nth-*` name is valid exactly when its argument is a formula
   * `0n+b` with `b >= 1`, which becomes the index.  The other four names keep index 1.
   */
  function ResolvePosition(pseudoClasses: seq<AstPseudoClass>): (r: (bool, Position))
    ensures pseudoClasses == [] ==> r == (false, DefaultPosition)
    ensures pseudoClasses != [] && (|pseudoClasses| > 1 || pseudoClasses[0].name !in PositioningPseudoClasses) ==>
      r == (true, DefaultPosition)
    ensures |pseudoClasses| == 1 && pseudoClasses[0].name in PositioningPseudoClasses ==>
      var name := pseudoClasses[0].name;
      var argument := pseudoClasses[0].argument;
      && r.1.explicit
      && (r.1.from == End <==> Contains(name, "last"))
      && (r.1.positionType == OfType <==> Contains(name, "type"))
      && (!Contains(name, "nth") ==> !r.0 && r.1.index == 1)
      && (Contains(name, "nth") ==>
            && (!r.0 <==> argument.Some? && argument.value.Formula? && argument.value.a == 0 && argument.value.b >= 1)
            && r.1.index == (if r.0 then 1 else argument.value.b))
    ensures !r.0 ==> r.1.index >= 1
  {
    if pseudoClasses == [] then (false, DefaultPosition)
    else
      var pseudoClass := pseudoClasses[0];
      if |pseudoClasses| > 1 || pseudoClass.name !in PositioningPseudoClasses then (true, DefaultPosition)
      else
        var position := DefaultPosition.(
          explicit := true,
          from := if Contains(pseudoClass.name, "last") then End else Start,
          positionType := if Contains(pseudoClass.name, "type") then OfType else Child);
        if Contains(pseudoClass.name, "nth") then
          var parsed :=
            match pseudoClass.argument
            case Some(Formula(a, b)) => ParsePositionFormula(a, b)
            case _ => None;
          if parsed.Some? && parsed.value != 0 then (false, position.(index := parsed.value))
          else (true, position)
        else (false, position)
  }

  /**
   * A valid `nth-*` descriptor stands for exactly one sibling position, and its index is that
   * position in the sense of Selectors Level 3.
   */
  lemma ValidNthIndexIsTheSelectedPosition(pseudoClass: AstPseudoClass, k: nat)
    requires pseudoClass.name in PositioningPseudoClasses && Contains(pseudoClass.name, "nth")
    requires !ResolvePosition([pseudoClass]).0
    ensures pseudoClass.argument.Some? && pseudoClass.argument.value.Formula?
    ensures FormulaSelects(pseudoClass.argument.value.a, pseudoClass.argument.value.b, k) <==>
      k == ResolvePosition([pseudoClass]).1.index
  {
    var arg := pseudoClass.argument.value;
    AcceptedFormulaSelectsOnlyItsPosition(arg.a, arg.b, k);
  }

  // ---------------------------------------------------------------------------------------------
  // Building the element.

  /** The tag of the element to create: the node's tag name, `div` when it has none (or a wildcard). */
  function TagFor(tag: Option<TagNode>): string {
    match tag
    case Some(TagName(name)) => name
    case _ => "div"
  }

  /** A wildcard tag or a pseudo-element makes the descriptor invalid before anything else is set. */
  predicate EarlyInvalid(rule: AstRule) {
    rule.tag == Some(WildcardTag) || rule.pseudoElement.Some?
  }

  /** The value given to an attribute: its string value, or the empty string for any other kind. */
  function AttributeValueOf(attribute: AstAttribute): string {
    match attribute.value
    case Some(StringValue(v)) => v
    case _ => ""
  }

  /** The attribute map after `setAttribute` for each attribute in order. */
  function SetAttributes(attributes: map<string, string>, list: seq<AstAttribute>): map<string, string> {
    if list == [] then attributes
    else
      var last := list[|list| - 1];
      SetAttributes(attributes, list[..|list| - 1])[last.name := AttributeValueOf(last)]
  }

  /** A name that no attribute in the list carries keeps whatever value (or absence) it had. */
  lemma {:induction false} SetAttributesKeepsOthers(attributes: map<string, string>, list: seq<AstAttribute>, name: string)
    requires forall i | 0 <= i < |list| :: list[i].name != name
    ensures name in SetAttributes(attributes, list) <==> name in attributes
    ensures name in attributes ==> SetAttributes(attributes, list)[name] == attributes[name]
  {
    if list != [] {
      SetAttributesKeepsOthers(attributes, list[..|list| - 1], name);
    }
  }

  /** The last attribute of a given name decides that attribute's value. */
  lemma {:induction false} SetAttributesLastWins(attributes: map<string, string>, list: seq<AstAttribute>, i: nat)
    requires i < |list|
    requires forall j | i < j < |list| :: list[j].name != list[i].name
    ensures list[i].name in SetAttributes(attributes, list)
    ensures SetAttributes(attributes, list)[list[i].name] == AttributeValueOf(list[i])
  {
    if i < |list| - 1 {
      var init := list[..|list| - 1];
      SetAttributesLastWins(attributes, init, i);
    }
  }

  // ---------------------------------------------------------------------------------------------
  // Content.

  /** The element property (or text) that receives the content, chosen by the element's kind. */
  datatype ContentTarget = HrefProperty | SrcProperty | PlaceholderProperty | OptionTextAndValue | ValueProperty | FirstTextNode

  /**
   * The interface an element made by `createElement(localName)` has decides the target: anchor,
   * then audio/iframe/image/video, then input/textarea, then option, then select, then all others.
   */
  function ContentTargetFor(localName: string): ContentTarget {
    if localName == "a" then HrefProperty
    else if localName in ["audio", "iframe", "img", "video"] then SrcProperty
    else if localName in ["input", "textarea"] then PlaceholderProperty
    else if localName == "option" then OptionTextAndValue
    else if localName == "select" then ValueProperty
    else FirstTextNode
  }

  /** The part of an element that a content assignment can touch. */
  datatype ContentState = ContentState(href: string, src: string, placeholder: string, value: string, childNodes: seq<ChildNode>)

  function ContentStateOf(e: Element): ContentState
    reads e
  {
    ContentState(e.href, e.src, e.placeholder, e.value, e.childNodes)
  }

  /** What a content assignment of `v` does to that part of the element, per target. */
  function ApplyContent(target: ContentTarget, s: ContentState, v: string): ContentState {
    match target
    case HrefProperty => s.(href := v)
    case SrcProperty => s.(src := v)
    case PlaceholderProperty => s.(placeholder := v)
    case OptionTextAndValue => s.(childNodes := Utility.WithText(s.childNodes, v), value := v)
    case ValueProperty => s.(value := v)
    case FirstTextNode => s.(childNodes := Utility.WithText(s.childNodes, v))
  }

  /** Where the content of an element can be read back from, per target. */
  function ReadContent(target: ContentTarget, s: ContentState): Option<string> {
    match target
    case HrefProperty => Some(s.href)
    case SrcProperty => Some(s.src)
    case PlaceholderProperty => Some(s.placeholder)
    case ValueProperty => Some(s.value)
    case _ =>
      match Utility.FirstTextIndex(s.childNodes)
      case Some(i) => Some(s.childNodes[i].data)
      case None => None
  }

  /** The assigned content can be read back from its target. */
  lemma ContentReadsBack(target: ContentTarget, s: ContentState, v: string)
    ensures ReadContent(target, ApplyContent(target, s, v)) == Some(v)
    ensures target == OptionTextAndValue ==> ApplyContent(target, s, v).value == v
  {
    if target == OptionTextAndValue || target == FirstTextNode {
      Utility.WithTextIsFirstText(s.childNodes, v);
    }
  }

  /** The cascade: a second content assignment to the same element simply overwrites the first. */
  lemma ContentLastWriteWins(target: ContentTarget, s: ContentState, first: string, second: string)
    ensures ApplyContent(target, ApplyContent(target, s, first), second) == ApplyContent(target, s, second)
  {
    Utility.WithTextLastWriteWins(s.childNodes, first, second);
  }

  predicate IsQuote(c: char) {
    c == '\'' || c == '"'
  }

  /** JavaScript's `substring(start, end)`: both ends clamped to the string, swapped when reversed. */
  function JsSubstring(s: string, start: int, end: int): string {
    var a := if start < 0 then 0 else if start > |s| then |s| else start;
    var b := if end < 0 then 0 else if end > |s| then |s| else end;
    if a <= b then s[a..b] else s[b..a]
  }

  /**
   * The quote stripping of the `content` setter: one character off each end when the first and
   * the last character are both quote marks (either kind, checked independently).  A lone quote
   * mark stays as it is, because `substring(1, 0)` swaps its arguments.
   */
  function StripQuotes(value: string): (r: string)
    ensures |value| >= 2 && IsQuote(value[0]) && IsQuote(value[|value| - 1]) ==> r == value[1..|value| - 1]
    ensures |value| < 2 || !IsQuote(value[0]) || !IsQuote(value[|value| - 1]) ==> r == value
  {
    if |value| > 0 && IsQuote(value[0]) && IsQuote(value[|value| - 1]) then JsSubstring(value, 1, |value| - 1)
    else value
  }

  /** Quoting a string with any two quote marks and stripping gives the string back. */
  lemma StripQuotesRoundTrip(open: char, body: string, close: char)
    requires IsQuote(open) && IsQuote(close)
    ensures StripQuotes([open] + body + [close]) == body
  {
    var quoted := [open] + body + [close];
    assert quoted[1..|quoted| - 1] == body;
  }

  // ---------------------------------------------------------------------------------------------
  // The sibling selector.

  /** `siblingSelector`, from the element's tag name and the position. */
  function FormatSiblingSelector(tagName: string, position: Position): string {
    var selector := ":scope > ";
    var selector := selector + (if position.positionType == OfType then tagName else "*");
    var selector := selector + ":nth";
    var selector := selector + (if position.from == End then "-last" else "");
    var selector := selector + (if position.positionType == OfType then "-of-type" else "-child");
    selector + "(" + NatToString(position.index) + ")"
  }

  /** What a sibling selector asks for: the tag (or `*`), the counting direction and kind, and the index. */
  datatype SiblingQuery = SiblingQuery(head: string, from: From, positionType: PositionType, index: nat)

  predicate StartsWith(s: string, prefix: string) {
    |prefix| <= |s| && s[..|prefix|] == prefix
  }

  /** The index of the first occurrence of `c` in `s`, if any. */
  function IndexOf(s: string, c: char): (r: Option<nat>)
    ensures r.Some? ==> r.value < |s| && s[r.value] == c && c !in s[..r.value]
    ensures r.None? ==> c !in s
  {
    if s == [] then None
    else if s[0] == c then Some(0)
    else
      match IndexOf(s[1..], c)
      case Some(i) => (assert s[..i + 1] == [s[0]] + s[1..][..i]; Some(i + 1))
      case None => None
  }

  predicate AllDigits(s: string) {
    forall i | 0 <= i < |s| :: '0' <= s[i] <= '9'
  }

  /** Reads `(digits)`. */
  function DecodeIndex(s: string): Option<nat> {
    if |s| >= 3 && s[0] == '(' && s[|s| - 1] == ')' && AllDigits(s[1..|s| - 1]) then Some(ParseDigits(s[1..|s| - 1]))
    else None
  }

  /** Reads `-of-type(digits)` or `-child(digits)`. */
  function DecodeKindAndIndex(s: string): Option<(PositionType, nat)> {
    if StartsWith(s, "-of-type") then
      match DecodeIndex(s[8..])
      case Some(index) => Some((OfType, index))
      case None => None
    else if StartsWith(s, "-child") then
      match DecodeIndex(s[6..])
      case Some(index) => Some((Child, index))
      case None => None
    else None
  }

  /** Reads what follows `:nth`: an optional `-last`, then the kind and the index. */
  function DecodeAfterNth(s: string): Option<(From, PositionType, nat)> {
    var from := if StartsWith(s, "-last") then End else Start;
    var rest := if from == End then s[5..] else s;
    match DecodeKindAndIndex(rest)
    case Some((kind, index)) => Some((from, kind, index))
    case None => None
  }

  /** Reads a sibling selector back into what it asks for. */
  function DecodeSiblingSelector(s: string): Option<SiblingQuery> {
    if !StartsWith(s, ":scope > ") then None
    else
      var rest := s[9..];
      match IndexOf(rest, ':')
      case None => None
      case Some(k) =>
        var head := rest[..k];
        var rest := rest[k..];
        if !StartsWith(rest, ":nth") then None
        else
          match DecodeAfterNth(rest[4..])
          case Some((from, kind, index)) => Some(SiblingQuery(head, from, kind, index))
          case None => None
  }

  /** `a + b` starts with `a`, and what follows `a` is `b`. */
  lemma PrefixOfConcat(a: string, b: string)
    ensures StartsWith(a + b, a) && (a + b)[|a|..] == b
  {
    assert (a + b)[..|a|] == a;
  }

  lemma DecodeIndexRoundTrip(digits: string)
    requires |digits| >= 1 && AllDigits(digits)
    ensures DecodeIndex("(" + digits + ")") == Some(ParseDigits(digits))
  {
    var tail := "(" + digits + ")";
    assert tail[1..|tail| - 1] == digits;
  }

  lemma DecodeOfTypeRoundTrip(digits: string)
    requires |digits| >= 1 && AllDigits(digits)
    ensures DecodeKindAndIndex("-of-type" + ("(" + digits + ")")) == Some((OfType, ParseDigits(digits)))
  {
    DecodeIndexRoundTrip(digits);
    PrefixOfConcat("-of-type", "(" + digits + ")");
  }

  lemma DecodeChildRoundTrip(digits: string)
    requires |digits| >= 1 && AllDigits(digits)
    ensures DecodeKindAndIndex("-child" + ("(" + digits + ")")) == Some((Child, ParseDigits(digits)))
  {
    DecodeIndexRoundTrip(digits);
    DecodeChildOf("(" + digits + ")");
  }

  /** `-child` followed by a readable index reads as that index, counted among all children. */
  lemma DecodeChildOf(tail: string)
    requires DecodeIndex(tail).Some?
    ensures DecodeKindAndIndex("-child" + tail) == Some((Child, DecodeIndex(tail).value))
  {
    var s := "-child" + tail;
    PrefixOfConcat("-child", tail);
    assert s[1] == 'c';
    NotOfType(s);
  }

  /** A string whose second character is not `o` does not start with `-of-type`. */
  lemma NotOfType(s: string)
    requires |s| >= 2 && s[1] != 'o'
    ensures !StartsWith(s, "-of-type")
  {
    if |s| >= 8 {
      assert s[..8][1] == s[1];
    }
  }

  /** Whatever the kind reads, `-last` in front of it reads as counting from the end. */
  lemma DecodeAfterNthEnd(rest: string, kind: PositionType, index: nat)
    requires DecodeKindAndIndex(rest) == Some((kind, index))
    ensures DecodeAfterNth("-last" + rest) == Some((End, kind, index))
  {
    PrefixOfConcat("-last", rest);
  }

  /** A kind read without `-last` in front counts from the start. */
  lemma DecodeAfterNthStart(rest: string, kind: PositionType, index: nat)
    requires DecodeKindAndIndex(rest) == Some((kind, index))
    ensures DecodeAfterNth(rest) == Some((Start, kind, index))
  {
    assert rest[1] == 'o' || rest[1] == 'c' by {
      if StartsWith(rest, "-of-type") {
        assert rest[..8][1] == 'o';
      } else {
        assert rest[..6][1] == 'c';
      }
    }
    assert rest[..5][1] == rest[1];
  }

  lemma DecodeAfterNthRoundTrip(from: From, kind: PositionType, digits: string)
    requires |digits| >= 1 && AllDigits(digits)
    ensures DecodeAfterNth(
      (if from == End then "-last" else "") +
      ((if kind == OfType then "-of-type" else "-child") + ("(" + digits + ")"))) ==
      Some((from, kind, ParseDigits(digits)))
  {
    var rest := (if kind == OfType then "-of-type" else "-child") + ("(" + digits + ")");
    if kind == OfType {
      DecodeOfTypeRoundTrip(digits);
    } else {
      DecodeChildRoundTrip(digits);
    }
    if from == End {
      DecodeAfterNthEnd(rest, kind, ParseDigits(digits));
    } else {
      assert "" + rest == rest;
      DecodeAfterNthStart(rest, kind, ParseDigits(digits));
    }
  }

  /** A selector made of the scope prefix, a colon-free head, `:nth` and a readable tail reads back. */
  lemma DecodeSiblingParts(head: string, after: string, from: From, kind: PositionType, index: nat)
    requires ':' !in head
    requires DecodeAfterNth(after) == Some((from, kind, index))
    ensures DecodeSiblingSelector(":scope > " + (head + (":nth" + after))) ==
      Some(SiblingQuery(head, from, kind, index))
  {
    var s := ":scope > " + (head + (":nth" + after));
    PrefixOfConcat(":scope > ", head + (":nth" + after));
    var rest := s[9..];
    PrefixOfConcat(head, ":nth" + after);
    IndexOfFirst(rest, ':', |head|);
    PrefixOfConcat(":nth", after);
  }

  /**
   * The sibling selector says exactly what the position means: reading it back gives the tag
   * (or `*` for any child), the direction, the kind and the index, for every tag name without a
   * colon.  The lemma assumes that: an escaped type selector such as `foo\:bar` does give a tag
   * name with a colon, and its sibling selector does not read back.
   */
  lemma SiblingSelectorRoundTrip(tagName: string, position: Position)
    requires ':' !in tagName
    ensures DecodeSiblingSelector(FormatSiblingSelector(tagName, position)) ==
      Some(SiblingQuery(if position.positionType == OfType then tagName else "*",
                        position.from, position.positionType, position.index))
  {
    var head := if position.positionType == OfType then tagName else "*";
    var digits := NatToString(position.index);
    ParseNatToString(position.index);
    var lastPart := if position.from == End then "-last" else "";
    var kindPart := if position.positionType == OfType then "-of-type" else "-child";
    var after := lastPart + (kindPart + ("(" + digits + ")"));
    FormatSiblingSelectorParts(":scope > ", head, ":nth", lastPart, kindPart, digits);
    DecodeAfterNthRoundTrip(position.from, position.positionType, digits);
    DecodeSiblingParts(head, after, position.from, position.positionType, position.index);
  }

  /** The selector built piece by piece is the scope prefix, the head, `:nth` and the rest. */
  lemma FormatSiblingSelectorParts(scope: string, head: string, nth: string, last: string, kind: string, digits: string)
    ensures scope + head + nth + last + kind + "(" + digits + ")" ==
      scope + (head + (nth + (last + (kind + ("(" + digits + ")")))))
  {
    var index := "(" + digits + ")";
    assert scope + head + nth + last + kind + "(" + digits + ")" == (scope + head + nth + last + kind) + index;
    assert (scope + head + nth + last + kind) + index == (scope + head + nth + last) + (kind + index);
    assert (scope + head + nth + last) + (kind + index) == (scope + head + nth) + (last + (kind + index));
    assert (scope + head + nth) + (last + (kind + index)) == (scope + head) + (nth + (last + (kind + index)));
  }

  /** The first occurrence of `c` is at `k` when `s[k] == c` and no earlier character is `c`. */
  lemma {:induction false} IndexOfFirst(s: string, c: char, k: nat)
    requires k < |s| && s[k] == c && c !in s[..k]
    ensures IndexOf(s, c) == Some(k)
  {
    if k > 0 {
      assert s[0] != c by { assert s[..k][0] == s[0]; }
      assert s[1..][..k - 1] == s[1..k];
      assert c !in s[1..][..k - 1] by { assert s[1..k] == s[..k][1..]; }
      IndexOfFirst(s[1..], c, k - 1);
    }
  }

  /** The constructor's attribute loop: `setAttribute(name, value)` for each attribute in order. */
  method SetAttributesOf(e: Element, list: seq<AstAttribute>)
    modifies e`attributes
    ensures e.attributes == SetAttributes(old(e.attributes), list)
  {
    for i := 0 to |list|
      invariant e.attributes == SetAttributes(old(e.attributes), list[..i])
    {
      var attribute := list[i];
      var value := "";
      if attribute.value.Some? && attribute.value.value.StringValue? {
        value := attribute.value.value.value;
      }
      assert list[..i + 1][..i] == list[..i];
      e.attributes := e.attributes[attribute.name := value];
    }
    assert list[..|list|] == list;
  }

  // ---------------------------------------------------------------------------------------------
  // The Descriptor class.

  class Descriptor {
    var rule: AstRule
    var element: Element
    var combinator: string
    var position: Position
    var invalid: bool
    var rawContent: string

    /**
     * `new Descriptor(rule, content)`: creates the element (tag `div` unless the node names one)
     * and, unless a wildcard tag or a pseudo-element made the descriptor invalid first, gives it
     * the node's ids and classes joined by spaces, its attributes, the content (when non-empty),
     * the node's combinator (a space by default) and the position of its pseudo-class.  The content
     * `""` stands for an absent one: `if (content)` skips both.
     */
    constructor (rule: AstRule, content: string)
      ensures this.rule == rule && fresh(element)
      ensures element.tagName == AsciiUpper(TagFor(rule.tag)) && element.parentElement == null
      ensures EarlyInvalid(rule) ==>
        && invalid
        && combinator == "" && position == DefaultPosition && rawContent == ""
        && element.id == "" && element.classList == [] && element.attributes == map[]
        && ContentStateOf(element) == ContentState("", "", "", "", [])
      ensures !EarlyInvalid(rule) ==>
        && element.id == Join(rule.ids, " ")
        && element.classList == ClassTokens(rule.classNames)
        && element.attributes == SetAttributes(map[], rule.attributes)
        && rawContent == content
        && ContentStateOf(element) ==
             (if content == "" then ContentState("", "", "", "", [])
              else ApplyContent(ContentTargetFor(AsciiLower(element.tagName)), ContentState("", "", "", "", []), StripQuotes(content)))
        && combinator == rule.combinator.GetOr(" ")
        && (invalid, position) == ResolvePosition(rule.pseudoClasses)
    {
      this.rule := rule;
      var tag := "div";
      var invalid := false;
      if rule.tag.Some? && rule.tag.value.TagName? {
        tag := rule.tag.value.name;
      } else if rule.tag == Some(WildcardTag) {
        invalid := true;
      }
      var e: Element := new Element(tag);
      element := e;
      if rule.pseudoElement.Some? {
        invalid := true;
      }
      this.invalid := invalid;
      combinator := "";
      position := DefaultPosition;
      rawContent := "";
      new;
      if !invalid {
        Describe(rule, content);
      }
    }

    /**
     * The part of the constructor that runs for a descriptor still valid after its tag and
     * pseudo-element are checked: ids, classes, attributes, content, combinator and position.
     */
    method Describe(rule: AstRule, content: string)
      requires !invalid && position == DefaultPosition && rawContent == ""
      requires ContentStateOf(element) == ContentState("", "", "", "", [])
      requires element.attributes == map[]
      modifies this`combinator, this`invalid, this`position, this`rawContent, element
      ensures element.tagName == old(element.tagName) && element.parentElement == old(element.parentElement)
      ensures element.id == Join(rule.ids, " ")
      ensures element.classList == ClassTokens(rule.classNames)
      ensures element.attributes == SetAttributes(map[], rule.attributes)
      ensures rawContent == content
      ensures ContentStateOf(element) ==
        (if content == "" then ContentState("", "", "", "", [])
         else ApplyContent(ContentTargetFor(AsciiLower(element.tagName)), ContentState("", "", "", "", []), StripQuotes(content)))
      ensures combinator == rule.combinator.GetOr(" ")
      ensures (invalid, position) == ResolvePosition(rule.pseudoClasses)
    {
      element.id := Join(rule.ids, " ");
      element.classList := ClassTokens(rule.classNames);
      SetAttributesOf(element, rule.attributes);
      if content != "" {
        SetContent(content);
      }
      combinator := rule.combinator.GetOr(" ");
      SetPosition(rule.pseudoClasses);
    }

    /**
     * The last step of the constructor: validate the pseudo-class, if any, and record the position
     * it asks for.
     */
    method SetPosition(pseudoClasses: seq<AstPseudoClass>)
      requires !invalid && position == DefaultPosition
      modifies this`invalid, this`position
      ensures (invalid, position) == ResolvePosition(pseudoClasses)
    {
      if |pseudoClasses| > 0 {
        var pseudoClass := pseudoClasses[0];
        invalid := invalid || |pseudoClasses| > 1 || pseudoClass.name !in PositioningPseudoClasses;
        if invalid {
          return;
        }
        position := position.(explicit := true);
        position := position.(from := if Contains(pseudoClass.name, "last") then End else Start);
        position := position.(positionType := if Contains(pseudoClass.name, "type") then OfType else Child);
        if Contains(pseudoClass.name, "nth") {
          var parsed := None;
          if pseudoClass.argument.Some? && pseudoClass.argument.value.Formula? {
            parsed := ParsePositionFormula(pseudoClass.argument.value.a, pseudoClass.argument.value.b);
          }
          if parsed.Some? && parsed.value != 0 {
            position := position.(index := parsed.value);
          } else {
            invalid := true;
            return;
          }
        }
      }
    }

    /** The `content` getter: the raw value last assigned, quotes and all. */
    function Content(): string
      reads this
    {
      rawContent
    }

    /**
     * The `content` setter: remembers the raw value, strips one pair of quote marks and puts the
     * result where the element's kind takes it: `href` for anchors, `src` for audio, iframe, image
     * and video, `placeholder` for input and textarea, first text node and `value` for option,
     * `value` for select, the first text node for every other element.
     */
    method SetContent(value: string)
      modifies this`rawContent, element`href, element`src, element`placeholder, element`value, element`childNodes
      ensures Content() == value
      ensures ContentStateOf(element) ==
        ApplyContent(ContentTargetFor(AsciiLower(element.tagName)), old(ContentStateOf(element)), StripQuotes(value))
    {
      rawContent := value;
      var stripped := StripQuotes(value);
      match ContentTargetFor(AsciiLower(element.tagName))
      case HrefProperty =>
        element.href := stripped;
      case SrcProperty =>
        element.src := stripped;
      case PlaceholderProperty =>
        element.placeholder := stripped;
      case OptionTextAndValue =>
        Utility.ReplaceTextNode(element, stripped);
        element.value := stripped;
      case ValueProperty =>
        element.value := stripped;
      case FirstTextNode =>
        Utility.ReplaceTextNode(element, stripped);
    }

    /** `siblingSelector`: a selector for the sibling at this descriptor's position. */
    function SiblingSelector(): string
      reads this, element
    {
      FormatSiblingSelector(element.tagName, position)
    }
  }
}
