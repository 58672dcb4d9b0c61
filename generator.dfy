/**
 * The generator: `cssToHtml` turns the style rules of a style sheet into a tree of elements under
 * a fresh `body` element.  Each kept rule's selector is normalised (white space between two
 * compound selectors becomes a child combinator), then read one character at a time by a small
 * descriptor object that collects a tag, classes and an id and, at every combinator or other
 * separator, creates the element it describes and appends it to the output, to the previous
 * element, or beside it.
 *
 * The pure part (character classes, normalisation, the scanner `Step`/`Scan`, and the plan of the
 * tree a selector asks for) is written as functions; the descriptor object and the output tree are
 * updated in place, as in the source, by the methods of `CompoundDescriptor` and by `CssToHtml`,
 * which are proved to build exactly the planned tree.
 */
module Generator {

  import opened Wrappers
  import opened Dom

  // ---------------------------------------------------------------------------------------------
  // Rules.

  /** A rule of the style sheet as the generator sees it: a media rule, or a style rule's selector. */
  datatype CssRule = MediaRule | StyleRule(selectorText: string)

  /** Media rules, selectors starting with `*` and selectors containing `:` are skipped. */
  predicate Skipped(rule: CssRule) {
    rule.MediaRule? || (|rule.selectorText| > 0 && rule.selectorText[0] == '*') || ':' in rule.selectorText
  }

  // ---------------------------------------------------------------------------------------------
  // Character classes of JavaScript regular expressions.

  /** `\w`: an ASCII letter, digit or underscore. */
  predicate IsWordChar(c: char) {
    'a' <= c <= 'z' || 'A' <= c <= 'Z' || '0' <= c <= '9' || c == '_'
  }

  /**
   * `\s`: the white space and line terminator characters of ECMAScript.  The ASCII ones are the
   * space and tab, line feed, vertical tab, form feed and carriage return (U+0009 to U+000D).
   */
  predicate IsSpace(c: char) {
    c == ' ' || ('\t' <= c <= '\r') || ('\U{A0}' <= c && IsWideSpace(c))
  }

  /** The white space characters of `\s` above U+007F. */
  predicate IsWideSpace(c: char) {
    c == '\U{A0}' || c == '\U{1680}' || ('\U{2000}' <= c <= '\U{200A}') ||
    c == '\U{2028}' || c == '\U{2029}' || c == '\U{202F}' || c == '\U{205F}' ||
    c == '\U{3000}' || c == '\U{FEFF}'
  }

  /** `[\w-]`: a character that can end a compound selector. */
  predicate IsLeft(c: char) {
    IsWordChar(c) || c == '-'
  }

  /** `[\w-\.\#]`: a character that can start a compound selector. */
  predicate IsRight(c: char) {
    IsWordChar(c) || c == '-' || c == '.' || c == '#'
  }

  /** `+`, `~` or `>`. */
  predicate IsCombinator(c: char) {
    c == '+' || c == '~' || c == '>'
  }

  // ---------------------------------------------------------------------------------------------
  // Selector normalisation.

  /** The end of the run of white space in `t` that starts at `k`. */
  function RunEnd(t: string, k: nat): (j: nat)
    requires k <= |t|
    ensures k <= j <= |t|
    ensures forall m | k <= m < j :: IsSpace(t[m])
    ensures j < |t| ==> !IsSpace(t[j])
    decreases |t| - k
  {
    if k < |t| && IsSpace(t[k]) then RunEnd(t, k + 1) else k
  }

  /**
   * `t` starts with what `([\w-])\s+([\w-\.\#])` matches: a name character, white space, and a
   * character that starts a compound selector.  The white space is a descendant combinator.
   */
  predicate GapStart(t: string) {
    |t| >= 2 && IsLeft(t[0]) && IsSpace(t[1]) && RunEnd(t, 1) < |t| && IsRight(t[RunEnd(t, 1)])
  }

  /** No position of `s` starts a gap. */
  predicate NoGap(s: string) {
    s == [] || (!GapStart(s) && NoGap(s[1..]))
  }

  /**
   * The first replacement as the source writes it, `replaceAll(/([\w-])\s+([\w-\.\#])/g, '$1>$2')`:
   * the match consumes the character after the white space, so that character cannot start the
   * next match.
   */
  function ReplaceAsWritten(s: string): string
    decreases |s|
  {
    if s == [] then []
    else if GapStart(s) then
      var j := RunEnd(s, 1);
      [s[0], '>', s[j]] + ReplaceAsWritten(s[j + 1..])
    else [s[0]] + ReplaceAsWritten(s[1..])
  }

  /**
   * The first replacement as intended, `replaceAll(/([\w-])\s+(?=[\w-\.\#])/g, '$1>')`: the
   * character after the white space is only looked at, so it can start the next match.
   */
  function ReplaceCorrected(s: string): string
    decreases |s|
  {
    if s == [] then []
    else if GapStart(s) then [s[0], '>'] + ReplaceCorrected(s[RunEnd(s, 1)..])
    else [s[0]] + ReplaceCorrected(s[1..])
  }

  /** No two `>` are next to each other. */
  predicate NoDoubleChild(s: string) {
    forall i | 0 <= i < |s| - 1 :: !(s[i] == '>' && s[i + 1] == '>')
  }

  /** `replaceAll(/>{2,}/g, '>')`: every run of `>` becomes a single `>`. */
  function CollapseChildCombinators(s: string): (r: string)
    ensures s != [] ==> r != [] && r[0] == s[0]
    ensures NoDoubleChild(r)
    ensures ('>' in r) <==> ('>' in s)
    decreases |s|
  {
    if s == [] then []
    else if |s| >= 2 && s[0] == '>' && s[1] == '>' then CollapseChildCombinators(s[1..])
    else [s[0]] + CollapseChildCombinators(s[1..])
  }

  /**
   * `replaceAll(' ', '')`: every space character (and no other white space) is removed; every
   * other character keeps its number of occurrences.
   */
  function RemoveSpaces(s: string): (r: string)
    ensures ' ' !in r
    ensures forall c | c != ' ' :: multiset(r)[c] == multiset(s)[c]
    decreases |s|
  {
    if s == [] then []
    else
      var rest := RemoveSpaces(s[1..]);
      assert s == [s[0]] + s[1..];
      assert multiset(s) == multiset([s[0]]) + multiset(s[1..]);
      if s[0] == ' ' then rest
      else
        assert multiset([s[0]] + rest) == multiset([s[0]]) + multiset(rest);
        [s[0]] + rest
  }

  /** Removing spaces from two pieces and joining them is removing spaces from the whole: order is kept. */
  lemma {:induction false} RemoveSpacesConcat(a: string, b: string)
    ensures RemoveSpaces(a + b) == RemoveSpaces(a) + RemoveSpaces(b)
    decreases |a|
  {
    if a == [] {
      assert a + b == b;
    } else {
      assert (a + b)[1..] == a[1..] + b;
      RemoveSpacesConcat(a[1..], b);
    }
  }

  /** A string without a run of `>` is left alone, so collapsing twice is collapsing once. */
  lemma {:induction false} CollapseLeavesCollapsed(s: string)
    requires NoDoubleChild(s)
    ensures CollapseChildCombinators(s) == s
    decreases |s|
  {
    if s != [] {
      assert NoDoubleChild(s[1..]);
      CollapseLeavesCollapsed(s[1..]);
    }
  }

  /** Collapsing runs of `>` changes nothing essential. */
  lemma {:induction false} CollapseKeepsEssential(s: string)
    ensures Essential(CollapseChildCombinators(s)) == Essential(s)
    decreases |s|
  {
    if s != [] {
      CollapseKeepsEssential(s[1..]);
      assert s == [s[0]] + s[1..];
      EssentialConcat([s[0]], s[1..]);
      EssentialConcat([s[0]], CollapseChildCombinators(s[1..]));
    }
  }

  /** Removing spaces changes nothing essential. */
  lemma {:induction false} RemoveSpacesKeepsEssential(s: string)
    ensures Essential(RemoveSpaces(s)) == Essential(s)
    decreases |s|
  {
    if s != [] {
      RemoveSpacesKeepsEssential(s[1..]);
      assert s == [s[0]] + s[1..];
      EssentialConcat([s[0]], s[1..]);
      EssentialConcat([s[0]], RemoveSpaces(s[1..]));
    }
  }

  /** The three replacements the generator applies to a selector, with the corrected first one. */
  function NormaliseSelector(s: string): (r: string)
    ensures ' ' !in r
    ensures Essential(r) == Essential(s)
  {
    ReplaceKeepsEssential(s);
    CollapseKeepsEssential(ReplaceCorrected(s));
    RemoveSpacesKeepsEssential(CollapseChildCombinators(ReplaceCorrected(s)));
    RemoveSpaces(CollapseChildCombinators(ReplaceCorrected(s)))
  }

  /** The three replacements exactly as the source writes them. */
  function NormaliseSelectorAsWritten(s: string): string {
    RemoveSpaces(CollapseChildCombinators(ReplaceAsWritten(s)))
  }

  /** What a selector says apart from its white space and child combinators. */
  function Essential(s: string): string
    decreases |s|
  {
    if s == [] then [] else (if IsSpace(s[0]) || s[0] == '>' then [] else [s[0]]) + Essential(s[1..])
  }

  lemma {:induction false} EssentialConcat(a: string, b: string)
    ensures Essential(a + b) == Essential(a) + Essential(b)
    decreases |a|
  {
    if a != [] {
      assert (a + b)[1..] == a[1..] + b;
      EssentialConcat(a[1..], b);
    } else {
      assert a + b == b;
    }
  }

  /** A run of white space says nothing essential. */
  lemma {:induction false} EssentialOfSpaces(s: string)
    requires AllSpace(s)
    ensures Essential(s) == []
    decreases |s|
  {
    if s != [] {
      EssentialOfSpaces(s[1..]);
    }
  }

  /** Every character of `s` is white space. */
  predicate AllSpace(s: string)
    decreases |s|
  {
    s == [] || (IsSpace(s[0]) && AllSpace(s[1..]))
  }

  /** The characters `RunEnd` skips are all white space. */
  lemma {:induction false} AllSpaceOfRun(t: string, k: nat, j: nat)
    requires k <= j <= |t|
    requires forall m | k <= m < j :: IsSpace(t[m])
    ensures AllSpace(t[k..j])
    decreases j - k
  {
    if k < j {
      AllSpaceOfRun(t, k + 1, j);
      assert t[k..j][1..] == t[k + 1..j];
    }
  }

  // ---------------------------------------------------------------------------------------------
  // The corrected replacement turns every descendant combinator into `>`.

  /** White space at the front of a string passes through the replacement unchanged. */
  lemma {:induction false} SpacesPassThrough(w: string, u: string)
    requires AllSpace(w)
    ensures ReplaceCorrected(w + u) == w + ReplaceCorrected(u)
    decreases |w|
  {
    if w != [] {
      var t := w + u;
      assert !IsLeft(t[0]);
      assert t[1..] == w[1..] + u;
      SpacesPassThrough(w[1..], u);
      assert w == [w[0]] + w[1..];
    } else {
      assert w + u == u;
    }
  }

  /** The replacement starts with the same character as its input. */
  lemma ReplaceFirst(t: string)
    requires t != []
    ensures ReplaceCorrected(t) != [] && ReplaceCorrected(t)[0] == t[0]
  {
  }

  /** A run of white space followed by something else ends where that something starts. */
  lemma {:induction false} RunEndAfterSpaces(p: string, w: string, v: string)
    requires AllSpace(w)
    requires v == [] || !IsSpace(v[0])
    ensures RunEnd(p + w + v, |p|) == |p| + |w|
    decreases |w|
  {
    if w != [] {
      assert p + w + v == (p + [w[0]]) + w[1..] + v;
      RunEndAfterSpaces(p + [w[0]], w[1..], v);
    } else {
      assert p + w + v == p + v;
    }
  }

  /** The output of the corrected replacement does not start a gap. */
  lemma NoGapAtFront(s: string)
    ensures !GapStart(ReplaceCorrected(s))
  {
    var r := ReplaceCorrected(s);
    if s != [] && !GapStart(s) && |s| >= 2 && IsLeft(s[0]) && IsSpace(s[1]) {
      // The white space is copied, and what follows it cannot start a compound selector.
      var j := RunEnd(s, 1);
      var v := ReplaceCorrected(s[j..]);
      AllSpaceOfRun(s, 1, j);
      SpacesPassThrough(s[1..j], s[j..]);
      assert s[1..] == s[1..j] + s[j..];
      assert r == [s[0]] + s[1..j] + v;
      if j < |s| {
        ReplaceFirst(s[j..]);
      }
      RunEndAfterSpaces([s[0]], s[1..j], v);
    } else if s != [] && !GapStart(s) && |s| >= 2 {
      ReplaceFirst(s[1..]);
      assert r[1] == s[1];
    }
  }

  /** The corrected replacement leaves no descendant combinator behind. */
  lemma {:induction false} ReplaceLeavesNoGap(s: string)
    ensures NoGap(ReplaceCorrected(s))
    decreases |s|
  {
    if s != [] {
      var r := ReplaceCorrected(s);
      NoGapAtFront(s);
      if GapStart(s) {
        var j := RunEnd(s, 1);
        ReplaceLeavesNoGap(s[j..]);
        assert r[1..][1..] == ReplaceCorrected(s[j..]);
        assert !IsLeft(r[1]);
      } else {
        ReplaceLeavesNoGap(s[1..]);
        assert r[1..] == ReplaceCorrected(s[1..]);
      }
    }
  }

  /** The corrected replacement only drops white space and adds `>`. */
  lemma {:induction false} ReplaceKeepsEssential(s: string)
    ensures Essential(ReplaceCorrected(s)) == Essential(s)
    decreases |s|
  {
    if s != [] {
      assert s == [s[0]] + s[1..];
      EssentialConcat([s[0]], s[1..]);
      if GapStart(s) {
        var j := RunEnd(s, 1);
        ReplaceKeepsEssential(s[j..]);
        EssentialConcat([s[0], '>'], ReplaceCorrected(s[j..]));
        assert s[1..] == s[1..j] + s[j..];
        EssentialConcat(s[1..j], s[j..]);
        AllSpaceOfRun(s, 1, j);
        EssentialOfSpaces(s[1..j]);
        assert Essential([s[0], '>']) == [s[0]];
      } else {
        ReplaceKeepsEssential(s[1..]);
        EssentialConcat([s[0]], ReplaceCorrected(s[1..]));
      }
    }
  }

  // ---------------------------------------------------------------------------------------------
  // Normalisation separates compound selectors.

  /**
   * A compound selector as normalisation sees it: it starts with a character that can start one,
   * ends with a name character, and holds no white space and no `>`.
   */
  predicate IsCompound(w: string) {
    && |w| > 0 && IsRight(w[0]) && IsLeft(w[|w| - 1])
    && forall j | 0 <= j < |w| :: !IsSpace(w[j]) && w[j] != '>'
  }

  /** Text without white space passes through the replacement unchanged. */
  lemma {:induction false} ReplaceWithoutSpace(w: string)
    requires forall j | 0 <= j < |w| :: !IsSpace(w[j])
    ensures ReplaceCorrected(w) == w
    decreases |w|
  {
    if w != [] {
      ReplaceWithoutSpace(w[1..]);
      assert w == [w[0]] + w[1..];
    }
  }

  /** The single space after a compound, before the next one, becomes `>`. */
  lemma {:induction false} ReplaceAfterCompound(w: string, rest: string)
    requires |w| > 0 && IsLeft(w[|w| - 1]) && forall j | 0 <= j < |w| :: !IsSpace(w[j])
    requires |rest| > 0 && IsRight(rest[0])
    ensures ReplaceCorrected(w + " " + rest) == w + ">" + ReplaceCorrected(rest)
    decreases |w|
  {
    var s := w + " " + rest;
    if |w| == 1 {
      assert s[2..] == rest;
      assert RunEnd(s, 2) == 2;
      assert RunEnd(s, 1) == 2;
      assert GapStart(s);
    } else {
      assert s[1] == w[1];
      assert s[1..] == w[1..] + " " + rest;
      ReplaceAfterCompound(w[1..], rest);
      assert w == [w[0]] + w[1..];
    }
  }

  /** The replacement turns compounds separated by single spaces into compounds separated by `>`. */
  lemma {:induction false} ReplaceSeparatesCompounds(cs: seq<string>)
    requires |cs| > 0 && forall i | 0 <= i < |cs| :: IsCompound(cs[i])
    ensures ReplaceCorrected(Join(cs, " ")) == Join(cs, ">")
    decreases |cs|
  {
    if |cs| == 1 {
      ReplaceWithoutSpace(cs[0]);
    } else {
      JoinFront(cs, " ");
      JoinFront(cs, ">");
      assert IsCompound(cs[0]) && IsCompound(cs[1]);
      JoinFirst(cs[1..], " ");
      ReplaceAfterCompound(cs[0], Join(cs[1..], " "));
      ReplaceSeparatesCompounds(cs[1..]);
    }
  }

  /** Compounds joined by `>` hold no space and no two adjacent `>`, and end with a name character. */
  lemma {:induction false} JoinedCompoundsAreClean(cs: seq<string>)
    requires |cs| > 0 && forall i | 0 <= i < |cs| :: IsCompound(cs[i])
    ensures NoDoubleChild(Join(cs, ">")) && ' ' !in Join(cs, ">")
    ensures |Join(cs, ">")| > 0 && IsLeft(Join(cs, ">")[|Join(cs, ">")| - 1])
    decreases |cs|
  {
    var j := Join(cs, ">");
    var w := cs[|cs| - 1];
    assert IsCompound(w);
    if |cs| > 1 {
      var init := cs[..|cs| - 1];
      JoinedCompoundsAreClean(init);
      var p := Join(init, ">");
      assert j == p + ">" + w;
      forall i | 0 <= i < |j| - 1
        ensures !(j[i] == '>' && j[i + 1] == '>')
      {
        if i < |p| - 1 {
          assert j[i] == p[i] && j[i + 1] == p[i + 1];
        } else if i == |p| - 1 {
          assert j[i] == p[i];
        } else if i == |p| {
          assert j[i + 1] == w[0];
        } else {
          assert j[i + 1] == w[i + 1 - |p| - 1];
        }
      }
      assert ' ' !in j by {
        forall i | 0 <= i < |j| ensures j[i] != ' ' {
          if i < |p| {
            assert j[i] == p[i];
          } else if i > |p| {
            assert j[i] == w[i - |p| - 1];
          }
        }
      }
    } else {
      assert ' ' !in j by {
        forall i | 0 <= i < |j| ensures j[i] != ' ' {
          assert !IsSpace(j[i]);
        }
      }
    }
  }

  /** Text without a space character is left alone by the space removal. */
  lemma {:induction false} RemoveSpacesWithoutSpace(s: string)
    requires ' ' !in s
    ensures RemoveSpaces(s) == s
    decreases |s|
  {
    if s != [] {
      assert s[0] != ' ' && ' ' !in s[1..];
      RemoveSpacesWithoutSpace(s[1..]);
      assert s == [s[0]] + s[1..];
    }
  }

  /**
   * Compound selectors separated by single spaces (descendant combinators) come out of the
   * normalisation separated by `>`, each compound intact: `div.a p#b span` becomes
   * `div.a>p#b>span`.
   */
  lemma NormaliseSeparatesCompounds(cs: seq<string>)
    requires |cs| > 0 && forall i | 0 <= i < |cs| :: IsCompound(cs[i])
    ensures NormaliseSelector(Join(cs, " ")) == Join(cs, ">")
  {
    ReplaceSeparatesCompounds(cs);
    JoinedCompoundsAreClean(cs);
    CollapseLeavesCollapsed(Join(cs, ">"));
    RemoveSpacesWithoutSpace(Join(cs, ">"));
  }

  /**
   * As written, the first replacement leaves a descendant combinator behind when two of them are
   * one character apart: `a b c` becomes `a>b c`, and removing the space then fuses the last two
   * compound selectors into one, `a>bc`.  The intended reading is `a>b>c`.
   */
  lemma AsWrittenFusesCompounds()
    ensures ReplaceAsWritten("a b c") == "a>b c"
    ensures !NoGap(ReplaceAsWritten("a b c"))
    ensures NormaliseSelectorAsWritten("a b c") == "a>bc"
    ensures NormaliseSelector("a b c") == "a>b>c"
  {
    AsWrittenReplacement();
    AsWrittenLeavesGap();
    AsWrittenCleanup();
    CorrectedReplacement();
    CorrectedCleanup();
  }

  lemma AsWrittenReplacement()
    ensures ReplaceAsWritten("a b c") == "a>b c"
  {
    var s := "a b c";
    assert RunEnd(s, 2) == 2;
    assert RunEnd(s, 1) == 2;
    assert GapStart(s);
    var t := s[3..];
    assert t == " c";
    assert !GapStart(t);
    assert t[1..] == "c";
    assert ReplaceAsWritten("c") == "c";
    assert ReplaceAsWritten(t) == " c";
  }

  lemma AsWrittenLeavesGap()
    ensures !NoGap("a>b c")
  {
    var w := "a>b c";
    var t := "b c";
    assert w[1..][1..] == t;
    assert RunEnd(t, 3) == 3;
    assert RunEnd(t, 2) == 2;
    assert RunEnd(t, 1) == 2;
    assert GapStart(t);
  }

  lemma AsWrittenCleanup()
    ensures CollapseChildCombinators("a>b c") == "a>b c"
    ensures RemoveSpaces("a>b c") == "a>bc"
  {
    AsWrittenCollapse();
    AsWrittenRemoveSpaces();
  }

  lemma AsWrittenCollapse()
    ensures CollapseChildCombinators("a>b c") == "a>b c"
  {
    CollapseLeavesCollapsed("a>b c");
  }

  lemma AsWrittenRemoveSpaces()
    ensures RemoveSpaces("a>b c") == "a>bc"
  {
    var w := "a>b c";
    assert w[1..] == ">b c" && w[1..][1..] == "b c" && w[1..][1..][1..] == " c";
    assert w[1..][1..][1..][1..] == "c";
    assert RemoveSpaces("c") == "c";
    assert RemoveSpaces(" c") == "c";
    assert RemoveSpaces("b c") == "bc";
    assert RemoveSpaces(">b c") == ">bc";
  }

  lemma CorrectedReplacement()
    ensures ReplaceCorrected("a b c") == "a>b>c"
  {
    var s := "a b c";
    assert RunEnd(s, 2) == 2;
    assert RunEnd(s, 1) == 2;
    assert GapStart(s);
    var t := s[2..];
    assert t == "b c";
    assert RunEnd(t, 3) == 3;
    assert RunEnd(t, 2) == 2;
    assert RunEnd(t, 1) == 2;
    assert GapStart(t);
    assert t[2..] == "c";
    assert ReplaceCorrected("c") == "c";
  }

  lemma CorrectedCleanup()
    ensures CollapseChildCombinators("a>b>c") == "a>b>c"
    ensures RemoveSpaces("a>b>c") == "a>b>c"
  {
    CorrectedCollapse();
    CorrectedRemoveSpaces();
  }

  lemma CorrectedCollapse()
    ensures CollapseChildCombinators("a>b>c") == "a>b>c"
  {
    CollapseLeavesCollapsed("a>b>c");
  }

  lemma CorrectedRemoveSpaces()
    ensures RemoveSpaces("a>b>c") == "a>b>c"
  {
    var w := "a>b>c";
    assert w[1..] == ">b>c" && w[1..][1..] == "b>c" && w[1..][1..][1..] == ">c";
    assert w[1..][1..][1..][1..] == "c";
    assert RemoveSpaces("c") == "c";
    assert RemoveSpaces(">c") == ">c";
    assert RemoveSpaces("b>c") == "b>c";
    assert RemoveSpaces(">b>c") == ">b>c";
  }

  // ---------------------------------------------------------------------------------------------
  // The scanner, as a function of the characters read so far.

  /**
   * The descriptor's state without the element it points to: whether a previous element exists,
   * the previous character (empty at the start of a compound selector), the last combinator, the
   * address character (`.`, `#` or empty), the class names (the last one being filled), the id
   * and the tag.
   */
  datatype ScanState = ScanState(
    hasPrevious: bool,
    previousCharacter: string,
    combinator: string,
    addressCharacter: string,
    classes: seq<string>,
    id: string,
    tag: string)

  const Initial := ScanState(false, "", "", "", [""], "", "")

  /** Where a new element goes: into the output, into the previous element, or beside it. */
  datatype Placement = AtRoot | IntoPrevious | BesidePrevious

  /** An element to create: where it goes, and the tag, class names and id collected for it. */
  datatype Emission = Emission(placement: Placement, tag: string, classes: seq<string>, id: string)

  /** `descriptor.add(character)`. */
  function AddChar(st: ScanState, c: char): (r: ScanState)
    requires |st.classes| > 0
    ensures |r.classes| == |st.classes| && r.previousCharacter == [c]
    ensures r.hasPrevious == st.hasPrevious && r.combinator == st.combinator
    ensures r.addressCharacter == st.addressCharacter
    ensures st.addressCharacter == "" ==> r.tag == st.tag + [c] && r.classes == st.classes && r.id == st.id
    ensures st.addressCharacter == "." ==>
      && r.classes[..|r.classes| - 1] == st.classes[..|st.classes| - 1]
      && r.classes[|r.classes| - 1] == st.classes[|st.classes| - 1] + [c]
      && r.tag == st.tag && r.id == st.id
    ensures st.addressCharacter == "#" ==> r.id == st.id + [c] && r.tag == st.tag && r.classes == st.classes
  {
    var st :=
      if st.addressCharacter == "" then st.(tag := st.tag + [c])
      else if st.addressCharacter == "." then
        st.(classes := st.classes[..|st.classes| - 1] + [st.classes[|st.classes| - 1] + [c]])
      else if st.addressCharacter == "#" then st.(id := st.id + [c])
      else st;
    st.(previousCharacter := [c])
  }

  /** `descriptor.clear()`: everything but the previous element and the combinator is reset. */
  function Cleared(st: ScanState): (r: ScanState)
    ensures r == Initial.(hasPrevious := st.hasPrevious, combinator := st.combinator)
  {
    st.(previousCharacter := "", addressCharacter := "", classes := [""], id := "", tag := "")
  }

  /** The element `addElementToOutput` creates from the descriptor's state. */
  function Emit(st: ScanState): (r: Emission)
    ensures r.placement == AtRoot <==> !st.hasPrevious
    ensures r.placement == IntoPrevious <==> st.hasPrevious && st.combinator == ">"
    ensures r.tag == st.tag && r.classes == st.classes && r.id == st.id
  {
    var placement :=
      if !st.hasPrevious then AtRoot else if st.combinator == ">" then IntoPrevious else BesidePrevious;
    Emission(placement, st.tag, st.classes, st.id)
  }

  /** The character ends the compound selector being read, so its element is created. */
  predicate EndsCompound(st: ScanState, c: char) {
    st.previousCharacter != "" && !IsRight(c)
  }

  /** One turn of the character loop: the new state, and the element created, if any. */
  function Step(st: ScanState, c: char): (r: (ScanState, Option<Emission>))
    requires |st.classes| > 0
    ensures |r.0.classes| > 0
    ensures r.1.Some? <==> EndsCompound(st, c)
    ensures r.1.Some? ==> r.1.value == Emit(st) && r.0.hasPrevious && r.0.previousCharacter == ""
    ensures r.1.None? ==> r.0.hasPrevious == st.hasPrevious
    ensures r.1.Some? ==> r.0 == Initial.(hasPrevious := true, combinator := r.0.combinator)
    ensures IsCombinator(c) ==> r.0.combinator == [c]
    ensures !IsCombinator(c) ==> r.0.combinator == st.combinator
    ensures c == '.' ==>
      && r.1.None? && r.0.addressCharacter == "."
      && r.0.classes == (if st.previousCharacter == "" then st.classes else st.classes + [""])
    ensures c == '#' ==> r.1.None? && r.0.addressCharacter == "#" && r.0.classes == st.classes
  {
    if st.previousCharacter == "" then
      if IsCombinator(c) then (st.(combinator := [c]), None)
      else if c == '.' || c == '#' then (st.(addressCharacter := [c]), None)
      else (AddChar(st, c), None)
    else if IsWordChar(c) || c == '-' then (AddChar(st, c), None)
    else if c == '.' then (st.(addressCharacter := [c], classes := st.classes + [""]), None)
    else if c == '#' then (st.(addressCharacter := [c]), None)
    else if IsCombinator(c) then (Cleared(st.(hasPrevious := true)).(combinator := [c]), Some(Emit(st)))
    else (Cleared(st.(hasPrevious := true)), Some(Emit(st)))
  }

  /** One more turn of the loop after `r`: the step's new state, and its element added to those created. */
  function Next(r: (ScanState, seq<Emission>), c: char): (ScanState, seq<Emission>)
    requires |r.0.classes| > 0
  {
    var step := Step(r.0, c);
    (step.0, r.1 + (if step.1.Some? then [step.1.value] else []))
  }

  /** The character loop over `cs` from state `st`: the final state and the elements created. */
  function Scan(st: ScanState, cs: string): (r: (ScanState, seq<Emission>))
    requires |st.classes| > 0
    ensures |r.0.classes| > 0
    ensures st.hasPrevious ==> r.0.hasPrevious
    ensures r.0.hasPrevious <==> st.hasPrevious || |r.1| > 0
    ensures |r.1| > 0 && !st.hasPrevious ==> r.1[0].placement == AtRoot
  {
    if cs == [] then (st, []) else Next(Scan(st, cs[..|cs| - 1]), cs[|cs| - 1])
  }

  /** Scanning one more character is one more step. */
  lemma ScanSnoc(st: ScanState, cs: string, c: char)
    requires |st.classes| > 0
    ensures Scan(st, cs + [c]) == Next(Scan(st, cs), c)
  {
    assert (cs + [c])[..|cs|] == cs;
  }

  /** Scanning a prefix one character longer is one more step. */
  lemma ScanPrefixStep(st: ScanState, cs: string, i: nat)
    requires |st.classes| > 0 && i < |cs|
    ensures Scan(st, cs[..i + 1]) == Next(Scan(st, cs[..i]), cs[i])
  {
    var longer := cs[..i + 1];
    assert longer[..i] == cs[..i] && longer[i] == cs[i];
  }

  /** The elements a normalised selector asks for, in order (`%` marks the end of the selector). */
  function Emissions(selector: string): seq<Emission> {
    Scan(Initial, selector + "%").1
  }

  /** A non-empty run of name characters, `[\w-]+`. */
  predicate IsName(w: string) {
    |w| > 0 && forall j | 0 <= j < |w| :: IsLeft(w[j])
  }

  /** The state after `add` of every character of a name: the name extends the addressed field. */
  function AddName(st: ScanState, w: string): (r: ScanState)
    requires |st.classes| > 0 && |w| > 0
  {
    var n := |st.classes|;
    var st :=
      if st.addressCharacter == "" then st.(tag := st.tag + w)
      else if st.addressCharacter == "." then st.(classes := st.classes[..n - 1] + [st.classes[n - 1] + w])
      else if st.addressCharacter == "#" then st.(id := st.id + w)
      else st;
    st.(previousCharacter := [w[|w| - 1]])
  }

  /** Adding one more character of a name is `add` of that character. */
  lemma AddNameSnoc(st: ScanState, w: string, c: char)
    requires |st.classes| > 0 && |w| > 0
    ensures AddChar(AddName(st, w), c) == AddName(st, w + [c])
  {
    var n := |st.classes|;
    var mid := AddName(st, w);
    if st.addressCharacter == "" {
      assert (st.tag + w) + [c] == st.tag + (w + [c]);
    } else if st.addressCharacter == "." {
      assert mid.classes[..n - 1] == st.classes[..n - 1];
      assert (st.classes[n - 1] + w) + [c] == st.classes[n - 1] + (w + [c]);
    } else if st.addressCharacter == "#" {
      assert (st.id + w) + [c] == st.id + (w + [c]);
    }
  }

  /** A name character is always added, at the start of a compound or inside one. */
  lemma StepName(st: ScanState, c: char)
    requires |st.classes| > 0 && IsLeft(c)
    ensures Step(st, c) == (AddChar(st, c), None)
  {
  }

  /** Reading a name creates no element and extends the tag, the last class or the id by it. */
  lemma {:induction false} ScanThenName(st: ScanState, p: string, w: string)
    requires |st.classes| > 0 && IsName(w)
    ensures Scan(st, p + w) == (AddName(Scan(st, p).0, w), Scan(st, p).1)
    decreases |w|
  {
    var init := w[..|w| - 1];
    var c := w[|w| - 1];
    assert p + w == (p + init) + [c];
    ScanSnoc(st, p + init, c);
    var before := Scan(st, p + init);
    StepName(before.0, c);
    assert before.1 + [] == before.1;
    if init == [] {
      assert p + init == p;
      assert w == [c];
      assert AddChar(before.0, c) == AddName(before.0, w);
    } else {
      assert IsName(init);
      assert w == init + [c];
      ScanThenName(st, p, init);
      AddNameSnoc(Scan(st, p).0, init, c);
    }
  }

  /** After a prefix that created nothing and ended inside a compound, `.` and a name extend a new class name. */
  lemma ScanThenClass(st: ScanState, p: string, w: string)
    requires |st.classes| > 0 && IsName(w)
    requires Scan(st, p).1 == [] && Scan(st, p).0.previousCharacter != ""
    ensures Scan(st, p + "." + w) ==
      (AddName(Scan(st, p).0.(addressCharacter := ".", classes := Scan(st, p).0.classes + [""]), w), [])
  {
    ScanSnoc(st, p, '.');
    assert p + "." == p + ['.'];
    ScanThenName(st, p + ".", w);
  }

  /** After a prefix that created nothing and ended inside a compound, `#` and a name extend the id. */
  lemma ScanThenId(st: ScanState, p: string, w: string)
    requires |st.classes| > 0 && IsName(w)
    requires Scan(st, p).1 == [] && Scan(st, p).0.previousCharacter != ""
    ensures Scan(st, p + "#" + w) == (AddName(Scan(st, p).0.(addressCharacter := "#"), w), [])
  {
    ScanSnoc(st, p, '#');
    assert p + "#" == p + ['#'];
    ScanThenName(st, p + "#", w);
  }

  /** After a prefix that created nothing and ended inside a compound, the stop character creates its element. */
  lemma ScanThenStop(st: ScanState, p: string)
    requires |st.classes| > 0 && Scan(st, p).1 == [] && Scan(st, p).0.previousCharacter != ""
    ensures Scan(st, p + "%").1 == [Emit(Scan(st, p).0)]
  {
    ScanSnoc(st, p, '%');
    assert p + "%" == p + ['%'];
  }

  /**
   * A compound of a tag, a class and an id, `t.c#d`, creates one element at the top of the tree
   * with tag `t`, class names `""` and `c` (the first class name is the empty one the descriptor
   * starts with, which is never added) and id `d`.
   */
  lemma CompoundFields(t: string, c: string, d: string)
    requires IsName(t) && IsName(c) && IsName(d)
    ensures Emissions(t + "." + c + "#" + d) == [Emission(AtRoot, t, ["", c], d)]
  {
    var p := t + "." + c;
    CompoundScan(t, c);
    var st := ScanState(false, [c[|c| - 1]], "", ".", ["", c], "", t);
    ScanThenId(Initial, p, d);
    var s3 := AddName(st.(addressCharacter := "#"), d);
    assert s3 == ScanState(false, [d[|d| - 1]], "", "#", ["", c], d, t);
    ScanThenStop(Initial, p + "#" + d);
  }

  /** Reading `t.c` collects the tag `t` and the class names `""` and `c`, and creates nothing. */
  lemma CompoundScan(t: string, c: string)
    requires IsName(t) && IsName(c)
    ensures Scan(Initial, t + "." + c) == (ScanState(false, [c[|c| - 1]], "", ".", ["", c], "", t), [])
  {
    TagScan(t);
    ScanThenClass(Initial, t, c);
    ClassAfterTag(t, c);
  }

  /** Reading a name from the start collects it as the tag and creates nothing. */
  lemma TagScan(t: string)
    requires IsName(t)
    ensures Scan(Initial, t) == (ScanState(false, [t[|t| - 1]], "", "", [""], "", t), [])
  {
    assert [] + t == t;
    ScanThenName(Initial, [], t);
  }

  /** After the tag `t`, `.` and the name `c` give the class names `""` and `c`. */
  lemma ClassAfterTag(t: string, c: string)
    requires IsName(t) && IsName(c)
    ensures var st := ScanState(false, [t[|t| - 1]], "", "", [""], "", t);
      AddName(st.(addressCharacter := ".", classes := st.classes + [""]), c) ==
      ScanState(false, [c[|c| - 1]], "", ".", ["", c], "", t)
  {
    var b := ScanState(false, [t[|t| - 1]], "", ".", ["", ""], "", t);
    assert [""] + [""] == ["", ""];
    assert b.classes[..1] == [""] && b.classes[1] + c == c;
  }

  /** Once a previous element exists, no element goes to the top of the tree. */
  lemma {:induction false} OnlyFirstAtRoot(st: ScanState, cs: string)
    requires |st.classes| > 0
    ensures forall i | 0 <= i < |Scan(st, cs).1| ::
      Scan(st, cs).1[i].placement == AtRoot ==> i == 0 && !st.hasPrevious
  {
    if cs != [] {
      var init := cs[..|cs| - 1];
      OnlyFirstAtRoot(st, init);
      var before := Scan(st, init);
      var step := Step(before.0, cs[|cs| - 1]);
      var r := Scan(st, cs);
      assert r.1 == before.1 + (if step.1.Some? then [step.1.value] else []);
      forall i | 0 <= i < |r.1| && r.1[i].placement == AtRoot
        ensures i == 0 && !st.hasPrevious
      {
        if i < |before.1| {
          assert r.1[i] == before.1[i];
        } else {
          // The new element goes to the top only when nothing came before it.
          assert r.1[i] == Emit(before.0);
        }
      }
    }
  }

  /**
   * Every selector creates at most one element at the top of its own tree: the first element it
   * creates goes to the output, and every later one goes into or beside an earlier one.
   */
  lemma FirstEmissionAtRoot(selector: string)
    ensures var es := Emissions(selector);
      (|es| > 0 ==> es[0].placement == AtRoot) && forall i | 0 < i < |es| :: es[i].placement != AtRoot
  {
    OnlyFirstAtRoot(Initial, selector + "%");
  }

  // ---------------------------------------------------------------------------------------------
  // The tree a style sheet asks for.

  /**
   * An element of the planned tree: its tag name (as `createElement` stores it), its class list,
   * its id, and the index of its parent among the planned elements (none: the output element).
   */
  datatype PlannedElement = PlannedElement(tagName: string, classList: seq<string>, id: string, parent: Option<nat>)

  /** Every element's parent is planned before it, so the plan is a forest under the output. */
  ghost predicate WellNested(plan: seq<PlannedElement>) {
    forall k | 0 <= k < |plan| :: plan[k].parent.Some? ==> plan[k].parent.value < k
  }

  /** The planned element for an emission, given the elements planned so far. */
  function Planned(plan: seq<PlannedElement>, e: Emission): (r: PlannedElement)
    requires e.placement != AtRoot ==> |plan| > 0
    ensures e.placement == IntoPrevious ==> r.parent == Some(|plan| - 1)
  {
    var parent := match e.placement
      case AtRoot => None
      case IntoPrevious => Some(|plan| - 1)
      case BesidePrevious => plan[|plan| - 1].parent;
    PlannedElement(AsciiUpper(if e.tag == "" then "div" else e.tag), ClassTokens(e.classes), e.id, parent)
  }

  /** The plan after the elements of `es` are added one after another. */
  function Extend(plan: seq<PlannedElement>, es: seq<Emission>): (r: seq<PlannedElement>)
    requires es == [] || es[0].placement == AtRoot || |plan| > 0
    ensures |r| == |plan| + |es| && plan <= r
  {
    if es == [] then plan
    else
      var p := Extend(plan, es[..|es| - 1]);
      p + [Planned(p, es[|es| - 1])]
  }

  /** Extending by one more emission adds its planned element. */
  lemma ExtendSnoc(plan: seq<PlannedElement>, es: seq<Emission>, e: Emission)
    requires es == [] || es[0].placement == AtRoot || |plan| > 0
    requires es == [] ==> e.placement == AtRoot || |plan| > 0
    ensures Extend(plan, es + [e]) == Extend(plan, es) + [Planned(Extend(plan, es), e)]
  {
    assert (es + [e])[..|es|] == es;
  }

  /** The plan of a sequence of rules: each kept rule adds the elements of its normalised selector. */
  function PlanOfRules(rules: seq<CssRule>): (r: seq<PlannedElement>)
  {
    if rules == [] then []
    else
      var p := PlanOfRules(rules[..|rules| - 1]);
      var rule := rules[|rules| - 1];
      if Skipped(rule) then p
      else
        FirstEmissionAtRoot(NormaliseSelector(rule.selectorText));
        Extend(p, Emissions(NormaliseSelector(rule.selectorText)))
  }

  /** The plan of the input: nothing when no rule list could be obtained. */
  function PlanOfCss(css: Option<seq<CssRule>>): seq<PlannedElement> {
    if css.None? then [] else PlanOfRules(css.value)
  }

  /** The children the plan gives to `parent` (none: the output element), in creation order. */
  function ChildElems(created: seq<Element>, plan: seq<PlannedElement>, parent: Option<nat>): seq<ChildNode>
    requires |created| == |plan|
  {
    if plan == [] then []
    else
      var n := |plan| - 1;
      ChildElems(created[..n], plan[..n], parent) + (if plan[n].parent == parent then [Elem(created[n])] else [])
  }

  /**
   * `created[k]` is the element planned at `k`: it has the planned tag name, classes and id, hangs
   * under the planned parent (none: the output element) and holds exactly the planned children.
   */
  /**
   * The generator sets nothing on an element but its tag, classes and id: no attribute, and no
   * `href`, `src`, `placeholder` or `value`.
   */
  ghost predicate Bare(e: Element)
    reads e`attributes, e`href, e`src, e`placeholder, e`value
  {
    e.attributes == map[] && e.href == "" && e.src == "" && e.placeholder == "" && e.value == ""
  }

  ghost predicate Placed(output: Element, created: seq<Element>, plan: seq<PlannedElement>, k: nat)
    requires |created| == |plan| && WellNested(plan) && k < |plan|
    reads output, created
  {
    && created[k].tagName == plan[k].tagName && created[k].classList == plan[k].classList
    && created[k].id == plan[k].id && Bare(created[k])
    && created[k].parentElement == (if plan[k].parent.None? then output else created[plan[k].parent.value])
    && created[k].childNodes == ChildElems(created, plan, Some(k))
  }

  /**
   * The heap holds the planned tree: every planned element is placed, and the output element is
   * detached and holds the planned top-level elements.
   */
  ghost predicate Realises(output: Element, created: seq<Element>, plan: seq<PlannedElement>)
    reads output, created
  {
    && |created| == |plan|
    && WellNested(plan)
    && output !in created
    && NoDuplicates(created)
    && output.parentElement == null
    && output.childNodes == ChildElems(created, plan, None)
    && (forall k | 0 <= k < |plan| :: Placed(output, created, plan, k))
  }

  /** What `Realises` says about every planned element, spelled out. */
  lemma RealisesEach(output: Element, created: seq<Element>, plan: seq<PlannedElement>)
    requires Realises(output, created, plan)
    ensures forall k | 0 <= k < |plan| ::
      created[k].tagName == plan[k].tagName && created[k].classList == plan[k].classList &&
      created[k].id == plan[k].id && Bare(created[k])
    ensures forall k | 0 <= k < |plan| ::
      created[k].parentElement == if plan[k].parent.None? then output else created[plan[k].parent.value]
    ensures forall k | 0 <= k < |plan| :: created[k].childNodes == ChildElems(created, plan, Some(k))
  {
    forall k | 0 <= k < |plan|
      ensures created[k].tagName == plan[k].tagName && created[k].classList == plan[k].classList &&
        created[k].id == plan[k].id && Bare(created[k])
      ensures created[k].parentElement == if plan[k].parent.None? then output else created[plan[k].parent.value]
      ensures created[k].childNodes == ChildElems(created, plan, Some(k))
    {
      assert Placed(output, created, plan, k);
    }
  }

  /** Adding one planned element adds it to its parent's children and to no one else's. */
  lemma ChildElemsAppend(created: seq<Element>, plan: seq<PlannedElement>, e: Element, pe: PlannedElement, parent: Option<nat>)
    requires |created| == |plan|
    ensures ChildElems(created + [e], plan + [pe], parent) ==
      ChildElems(created, plan, parent) + (if pe.parent == parent then [Elem(e)] else [])
  {
    assert (created + [e])[..|created|] == created;
    assert (plan + [pe])[..|plan|] == plan;
  }

  /** No planned element has a parent planned at or after it, so a new element has no children. */
  lemma {:induction false} NoChildrenYet(created: seq<Element>, plan: seq<PlannedElement>, n: nat)
    requires |created| == |plan| && WellNested(plan) && n >= |plan|
    ensures ChildElems(created, plan, Some(n)) == []
  {
    if plan != [] {
      var m := |plan| - 1;
      assert WellNested(plan[..m]);
      NoChildrenYet(created[..m], plan[..m], n);
    }
  }

  /**
   * The heap right after a new element `e` was appended to `target`: the tree is the planned one
   * except that `target`, the parent the plan entry names, also holds `e` as its last child.
   */
  ghost predicate RealisesBut(output: Element, created: seq<Element>, plan: seq<PlannedElement>,
                              e: Element, entry: PlannedElement, target: Element)
    reads output, created, e
  {
    && |created| == |plan|
    && WellNested(plan)
    && (entry.parent.Some? ==> entry.parent.value < |plan|)
    && target == (if entry.parent.None? then output else created[entry.parent.value])
    && output !in created && e !in created && e != output
    && NoDuplicates(created)
    && output.parentElement == null
    && e.tagName == entry.tagName && e.classList == entry.classList && e.id == entry.id && Bare(e)
    && e.childNodes == [] && e.parentElement == target
    && target.childNodes == ChildElems(created, plan, entry.parent) + [Elem(e)]
    && (output != target ==> output.childNodes == ChildElems(created, plan, None))
    && (forall k | 0 <= k < |plan| ::
          created[k].tagName == plan[k].tagName && created[k].classList == plan[k].classList &&
          created[k].id == plan[k].id && Bare(created[k]))
    && (forall k | 0 <= k < |plan| ::
          created[k].parentElement == if plan[k].parent.None? then output else created[plan[k].parent.value])
    && (forall k | 0 <= k < |plan| ::
          created[k] != target ==> created[k].childNodes == ChildElems(created, plan, Some(k)))
  }

  /** After the append, the heap realises the plan extended by the new entry. */
  lemma AppendRealises(output: Element, created: seq<Element>, plan: seq<PlannedElement>,
                       e: Element, entry: PlannedElement, target: Element)
    requires RealisesBut(output, created, plan, e, entry, target)
    ensures Realises(output, created + [e], plan + [entry])
  {
    var created' := created + [e];
    var plan' := plan + [entry];
    assert WellNested(plan');
    assert NoDuplicates(created');
    forall k | 0 <= k < |plan'|
      ensures Placed(output, created', plan', k)
    {
      AppendPlaces(output, created, plan, e, entry, target, k);
    }
    assert output.childNodes == ChildElems(created', plan', None) by {
      ChildElemsAppend(created, plan, e, entry, None);
      if entry.parent.None? {
        assert output == target;
      } else {
        assert output != target;
      }
    }
  }

  /** After the append, each planned element, old or new, is placed. */
  lemma AppendPlaces(output: Element, created: seq<Element>, plan: seq<PlannedElement>,
                     e: Element, entry: PlannedElement, target: Element, k: nat)
    requires RealisesBut(output, created, plan, e, entry, target)
    requires WellNested(plan + [entry]) && k <= |plan|
    ensures Placed(output, created + [e], plan + [entry], k)
  {
    var created' := created + [e];
    var plan' := plan + [entry];
    ChildElemsAppend(created, plan, e, entry, Some(k));
    if k < |plan| {
      assert created'[k] == created[k] && plan'[k] == plan[k];
      if plan[k].parent.Some? {
        assert created'[plan[k].parent.value] == created[plan[k].parent.value];
      }
      if entry.parent == Some(k) {
        assert created[k] == target;
      } else if entry.parent.None? {
        assert created[k] != target;
      } else {
        var q := entry.parent.value;
        assert q != k;
        if q < k {
          assert created[q] != created[k];
        } else {
          assert created[k] != created[q];
        }
      }
    } else {
      NoChildrenYet(created, plan, |plan|);
      if entry.parent.Some? {
        assert created'[entry.parent.value] == created[entry.parent.value];
      }
    }
  }

  // ---------------------------------------------------------------------------------------------
  // The descriptor object and the output tree.

  /** The `descriptor` object of `cssToHtml`, one per rule. */
  class CompoundDescriptor {
    var previousElement: Element?
    var previousCharacter: string
    var combinator: string
    var addressCharacter: string
    var classes: seq<string>
    var id: string
    var tag: string

    constructor ()
      ensures State() == Initial && previousElement == null
    {
      previousElement := null;
      previousCharacter := "";
      combinator := "";
      addressCharacter := "";
      classes := [""];
      id := "";
      tag := "";
    }

    /** The descriptor's state as the scanner sees it. */
    function State(): ScanState
      reads this
    {
      ScanState(previousElement != null, previousCharacter, combinator, addressCharacter, classes, id, tag)
    }

    /** `add(character)`: the character goes to the tag, the last class or the id. */
    method Add(character: char)
      requires |classes| > 0
      modifies this`tag, this`classes, this`id, this`previousCharacter
      ensures State() == AddChar(old(State()), character)
    {
      if addressCharacter == "" {
        tag := tag + [character];
      } else if addressCharacter == "." {
        classes := classes[..|classes| - 1] + [classes[|classes| - 1] + [character]];
      } else if addressCharacter == "#" {
        id := id + [character];
      }
      previousCharacter := [character];
    }

    /** `clear()`. */
    method Clear()
      modifies this`previousCharacter, this`addressCharacter, this`classes, this`id, this`tag
      ensures State() == Cleared(old(State()))
    {
      previousCharacter := "";
      addressCharacter := "";
      classes := [""];
      id := "";
      tag := "";
    }

    /** The first half of `addElementToOutput()`: create the described element, with its classes and id. */
    method CreateElement() returns (newElement: Element)
      ensures fresh(newElement)
      ensures newElement.tagName == AsciiUpper(if tag == "" then "div" else tag)
      ensures newElement.classList == ClassTokens(classes) && newElement.id == id
      ensures newElement.attributes == map[] && newElement.href == "" && newElement.src == ""
      ensures newElement.placeholder == "" && newElement.value == ""
      ensures newElement.childNodes == [] && newElement.parentElement == null
    {
      newElement := new Element(if tag == "" then "div" else tag);
      for i := 0 to |classes|
        modifies newElement`classList
        invariant newElement.classList == ClassTokens(classes[..i])
      {
        assert classes[..i + 1] == classes[..i] + [classes[i]];
        if classes[i] != "" {
          newElement.AddClass(classes[i]);
        }
      }
      assert classes[..|classes|] == classes;
      if id != "" {
        newElement.id := id;
      }
    }

    /**
     * Where `addElementToOutput()` appends the new element: into the previous element after `>`,
     * beside it (into its parent) after any other combinator, and into the output when there is
     * no previous element.  That is the parent the plan gives the new element.
     */
    method AppendTarget(output: Element, ghost created: seq<Element>, ghost plan: seq<PlannedElement>)
      returns (target: Element)
      requires Realises(output, created, plan)
      requires IsLastCreated(previousElement, created)
      ensures var entry := Planned(plan, Emit(State()));
        (entry.parent.Some? ==> entry.parent.value < |plan|) &&
        target == if entry.parent.None? then output else created[entry.parent.value]
    {
      if previousElement != null {
        if combinator == ">" {
          target := previousElement;
        } else {
          // Every element created so far hangs under the output or under another element.
          assert Placed(output, created, plan, |plan| - 1);
          target := previousElement.parentElement;
        }
      } else {
        target := output;
      }
    }

    /**
     * `addElementToOutput()`: create the described element and append it to the output, into the
     * previous element, or beside it; it becomes the previous element.  The tree built so far,
     * described by `plan`, grows by exactly the planned element for the current state.
     */
    method AddElementToOutput(output: Element, ghost created: seq<Element>, ghost plan: seq<PlannedElement>)
      returns (ghost created': seq<Element>)
      requires Realises(output, created, plan)
      requires IsLastCreated(previousElement, created)
      modifies this`previousElement, output`childNodes, created`childNodes
      ensures created' == created + [previousElement]
      ensures fresh(previousElement)
      ensures Realises(output, created', plan + [Planned(plan, Emit(old(State())))])
    {
      ghost var entry := Planned(plan, Emit(State()));
      var newElement := CreateElement();
      var target := AppendTarget(output, created, plan);
      previousElement := newElement;
      AppendPlanned(output, created, plan, target, newElement, entry);
      created' := created + [newElement];
    }

    /**
     * One turn of the character loop: the state moves as `Step` says, and when `Step` creates an
     * element the tree grows by exactly that element.
     */
    method ReadCharacter(character: char, output: Element, ghost created: seq<Element>, ghost plan: seq<PlannedElement>)
      returns (ghost created': seq<Element>)
      requires |classes| > 0
      requires Realises(output, created, plan)
      requires IsLastCreated(previousElement, created)
      modifies this, output`childNodes, created`childNodes
      ensures State() == Step(old(State()), character).0
      ensures EndsCompound(old(State()), character) ==>
        Realises(output, created', plan + [Planned(plan, Emit(old(State())))])
      ensures !EndsCompound(old(State()), character) ==> Realises(output, created', plan)
      ensures IsLastCreated(previousElement, created')
      ensures fresh((set x | x in created') - (set x | x in created))
    {
      created' := created;
      if previousCharacter == "" {
        StartCompound(character);
      } else if IsRight(character) {
        ContinueCompound(character);
      } else if IsCombinator(character) {
        created' := AddElementAndClear(output, created, plan);
        combinator := [character];
      } else {
        created' := AddElementAndClear(output, created, plan);
      }
    }

    /**
     * A character read at the start of a compound selector: a combinator is recorded, `.` or `#`
     * becomes the address character, and anything else is added.
     */
    method StartCompound(character: char)
      requires |classes| > 0 && previousCharacter == ""
      modifies this`combinator, this`addressCharacter, this`tag, this`classes, this`id, this`previousCharacter
      ensures State() == Step(old(State()), character).0
    {
      if IsCombinator(character) {
        combinator := [character];
      } else if character == '.' || character == '#' {
        addressCharacter := [character];
      } else {
        Add(character);
      }
    }

    /**
     * A name character, `.` or `#` read inside a compound selector: a name character is added,
     * `.` starts a new class name, and `#` makes the id the address.
     */
    method ContinueCompound(character: char)
      requires |classes| > 0 && previousCharacter != "" && IsRight(character)
      modifies this`addressCharacter, this`tag, this`classes, this`id, this`previousCharacter
      ensures State() == Step(old(State()), character).0
    {
      if IsWordChar(character) || character == '-' {
        Add(character);
      } else if character == '.' {
        addressCharacter := [character];
        classes := classes + [""];
      } else if character == '#' {
        addressCharacter := [character];
      }
    }

    /** `addElementToOutput(); descriptor.clear();`, as both separator branches do. */
    method AddElementAndClear(output: Element, ghost created: seq<Element>, ghost plan: seq<PlannedElement>)
      returns (ghost created': seq<Element>)
      requires Realises(output, created, plan)
      requires IsLastCreated(previousElement, created)
      modifies this, output`childNodes, created`childNodes
      ensures State() == Cleared(old(State()).(hasPrevious := true))
      ensures Realises(output, created', plan + [Planned(plan, Emit(old(State())))])
      ensures created' == created + [previousElement] && fresh(previousElement)
    {
      created' := AddElementToOutput(output, created, plan);
      Clear();
    }
  }

  /**
   * `target.append(e)` for a new element `e` whose planned parent is `target`: the heap then holds
   * the plan extended by `e`'s entry.
   */
  method AppendPlanned(output: Element, ghost created: seq<Element>, ghost plan: seq<PlannedElement>,
                       target: Element, e: Element, ghost entry: PlannedElement)
    requires Realises(output, created, plan)
    requires entry.parent.Some? ==> entry.parent.value < |plan|
    requires target == if entry.parent.None? then output else created[entry.parent.value]
    requires e !in created && e != output
    requires e.tagName == entry.tagName && e.classList == entry.classList && e.id == entry.id && Bare(e)
    requires e.childNodes == [] && e.parentElement == null
    modifies target`childNodes, e`parentElement
    ensures Realises(output, created + [e], plan + [entry])
  {
    RealisesEach(output, created, plan);
    ghost var oldChildren := target.childNodes;
    assert oldChildren == ChildElems(created, plan, entry.parent);
    target.Append(e);
    assert RealisesBut(output, created, plan, e, entry, target);
    AppendRealises(output, created, plan, e, entry, target);
  }

  /** The descriptor's previous element, when there is one, is the element created last. */
  predicate IsLastCreated(previous: Element?, created: seq<Element>) {
    previous != null ==> |created| > 0 && previous == created[|created| - 1]
  }

  /**
   * One turn of the character loop: the descriptor, having read `characters[..i]`, reads
   * `characters[i]`, and when that ends a compound selector the tree grows by its planned element.
   */
  method FeedCharacter(descriptor: CompoundDescriptor, characters: string, i: nat, output: Element,
                       ghost created: seq<Element>, ghost plan: seq<PlannedElement>, ghost emitted: seq<Emission>)
    returns (ghost created': seq<Element>, ghost emitted': seq<Emission>)
    requires i < |characters|
    requires descriptor.State() == Scan(Initial, characters[..i]).0
    requires emitted == Scan(Initial, characters[..i]).1
    requires Realises(output, created, Extend(plan, emitted))
    requires IsLastCreated(descriptor.previousElement, created)
    modifies descriptor, output`childNodes, created`childNodes
    ensures descriptor.State() == Scan(Initial, characters[..i + 1]).0
    ensures emitted' == Scan(Initial, characters[..i + 1]).1
    ensures Realises(output, created', Extend(plan, emitted'))
    ensures IsLastCreated(descriptor.previousElement, created')
    ensures fresh((set x | x in created') - (set x | x in created))
  {
    ghost var before := descriptor.State();
    ScanPrefixStep(Initial, characters, i);
    created' := descriptor.ReadCharacter(characters[i], output, created, Extend(plan, emitted));
    if EndsCompound(before, characters[i]) {
      ExtendSnoc(plan, emitted, Emit(before));
      emitted' := emitted + [Emit(before)];
    } else {
      emitted' := emitted;
      assert emitted + [] == emitted;
    }
  }

  /**
   * The character loop of `cssToHtml` for one normalised selector: a fresh descriptor reads the
   * selector and a stop character, and the tree grows by exactly the selector's planned elements.
   */
  method AppendSelector(output: Element, selector: string, ghost created: seq<Element>, ghost plan: seq<PlannedElement>)
    returns (ghost created': seq<Element>)
    requires Realises(output, created, plan)
    modifies output`childNodes, created`childNodes
    ensures Realises(output, created', Extend(plan, Emissions(selector)))
    ensures fresh((set x | x in created') - (set x | x in created))
  {
    var descriptor := new CompoundDescriptor();
    var characters := selector + "%";
    created' := created;
    ghost var emitted: seq<Emission> := [];
    assert Extend(plan, emitted) == plan;
    for i := 0 to |characters|
      invariant (descriptor.State(), emitted) == Scan(Initial, characters[..i])
      invariant Realises(output, created', Extend(plan, emitted))
      invariant IsLastCreated(descriptor.previousElement, created')
      invariant fresh((set x | x in created') - (set x | x in created))
    {
      created', emitted := FeedCharacter(descriptor, characters, i, output, created', plan, emitted);
    }
    assert characters[..|characters|] == characters;
    assert emitted == Emissions(selector);
  }

  /**
   * `cssToHtml` for a list of rules (none: the style sheet could not be read): a fresh `body`
   * element that holds exactly the tree planned by the kept rules.
   */
  method CssToHtml(css: Option<seq<CssRule>>) returns (output: Element, ghost created: seq<Element>)
    ensures fresh(output) && output.tagName == AsciiUpper("body")
    ensures fresh(set x | x in created)
    ensures Realises(output, created, PlanOfCss(css))
  {
    output := new Element("body");
    created := [];
    if css.None? {
      return;
    }
    var rules := css.value;
    for i := 0 to |rules|
      invariant Realises(output, created, PlanOfRules(rules[..i]))
      invariant fresh(set x | x in created)
      invariant output.tagName == AsciiUpper("body")
    {
      var rule := rules[i];
      assert rules[..i + 1][..i] == rules[..i];
      if rule.MediaRule? || (|rule.selectorText| > 0 && rule.selectorText[0] == '*') || ':' in rule.selectorText {
        continue;
      }
      var selector := NormaliseSelector(rule.selectorText);
      created := AppendSelector(output, selector, created, PlanOfRules(rules[..i]));
    }
    assert rules[..|rules|] == rules;
  }

  // ---------------------------------------------------------------------------------------------
  // Properties of the plan.

  /** Extending a well-nested plan keeps it well nested. */
  lemma {:induction false} ExtendWellNested(plan: seq<PlannedElement>, es: seq<Emission>)
    requires es == [] || es[0].placement == AtRoot || |plan| > 0
    requires WellNested(plan)
    ensures WellNested(Extend(plan, es))
  {
    if es != [] {
      ExtendWellNested(plan, es[..|es| - 1]);
    }
  }

  /** The elements of `r` after the first `n` have their parents among themselves or at the top. */
  ghost predicate ParentsFrom(r: seq<PlannedElement>, n: nat) {
    forall k | n <= k < |r| :: r[k].parent.None? || r[k].parent.value >= n
  }

  /**
   * The elements of one selector form their own trees: each new element's parent is the output or
   * an element of the same selector, never an element of an earlier rule.
   */
  lemma {:induction false} SelectorTreesAreSeparate(plan: seq<PlannedElement>, es: seq<Emission>)
    requires es == [] || es[0].placement == AtRoot
    ensures ParentsFrom(Extend(plan, es), |plan|)
  {
    if es != [] {
      var init := es[..|es| - 1];
      SelectorTreesAreSeparate(plan, init);
      var p := Extend(plan, init);
      assert ParentsFrom(p, |plan|);
      var r := Extend(plan, es);
      assert r == p + [Planned(p, es[|es| - 1])];
      forall k | |plan| <= k < |r|
        ensures r[k].parent.None? || r[k].parent.value >= |plan|
      {
        if k < |p| {
          assert r[k] == p[k];
        } else if |es| > 1 {
          var last := |p| - 1;
          assert |plan| <= last;
          assert p[last].parent.None? || p[last].parent.value >= |plan|;
          match es[|es| - 1].placement
          case AtRoot =>
          case IntoPrevious =>
          case BesidePrevious => assert r[k].parent == p[last].parent;
        } else {
          assert es[|es| - 1] == es[0];
        }
      }
    }
  }

  /** A skipped rule adds nothing to the tree. */
  lemma SkippedRuleAddsNothing(rules: seq<CssRule>, rule: CssRule)
    requires Skipped(rule)
    ensures PlanOfRules(rules + [rule]) == PlanOfRules(rules)
  {
    assert (rules + [rule])[..|rules|] == rules;
  }

  /** Later rules never change what earlier rules planned: the plan only grows. */
  lemma {:induction false} EarlierRulesUntouched(rules: seq<CssRule>, more: seq<CssRule>)
    ensures PlanOfRules(rules) <= PlanOfRules(rules + more)
  {
    if more != [] {
      EarlierRulesUntouched(rules, more[..|more| - 1]);
      assert (rules + more)[..|rules + more| - 1] == rules + more[..|more| - 1];
    } else {
      assert rules + more == rules;
    }
  }
}
