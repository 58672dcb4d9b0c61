# CSS-to-HTML core, modelled in Dafny

CSS-to-HTML turns a style sheet into an HTML document. Each style rule's selector is read as a
description of elements: `div > p.note` asks for a `div` that holds a `p` with class `note`. The
generator builds those elements under a fresh `body` element. This project models the core of
that library and proves properties of the model.

- `wrappers.dfy` (module `Wrappers`): the `Option` type. It stands for the source's `undefined`,
  `null` and `false` "no result" values, and `??` becomes `GetOr`.
- `dom.dfy` (module `Dom`): the part of the DOM the core touches.
  - `Element` is a class. Its fields are the tag name, id, class list, attributes, the
    `href`/`src`/`placeholder`/`value` properties, the child nodes and the parent.
  - The module also holds the small string operations the source relies on: ASCII case mapping,
    the `DOMTokenList` add, `join`, `includes` and decimal printing.
- `utility.dfy` (module `Utility`, `src/Utility.ts`):
  - element comparison (`elementsAreComparable`);
  - the in-place merge (`mergeElements`);
  - first-text-node replacement (`replaceTextNode`).
- `descriptor.dfy` (module `Descriptors`, `src/Descriptor.ts`):
  - the `an+b` formula parser;
  - the `Descriptor` class: its constructor, the `content` getter and setter, and
    `siblingSelector`.
- `generator.dfy` (module `Generator`, `src/Generator.ts`), the `cssToHtml` loop:
  - it skips media rules, selectors starting with `*` and selectors containing `:`;
  - it normalises the kept selectors;
  - a per-rule descriptor object reads them one character at a time;
  - at each separator, `addElementToOutput` appends the described element to the output, into
    the previous element, or beside it.
- `config.dfy` (module `Config`, `src/Config.ts`): the options record and its defaults.

The generator is modelled in two layers.

- The pure layer describes what a style sheet asks for:
  - `Step` and `Scan` describe the character loop;
  - `Emissions` lists the elements a selector creates;
  - `PlanOfRules` lists the planned elements of all kept rules, each with its parent's index.
- The imperative layer follows the source. `CompoundDescriptor` is a class whose fields are the
  descriptor object's fields, and `AddElementToOutput`, `AppendSelector` and `CssToHtml` update
  `Element` objects in place.

Every imperative step is proved against the pure layer. The predicate `Realises` states that the
heap holds exactly the planned tree: every created element has its planned tag, classes, id and
parent, and its planned children in creation order. `CssToHtml` ends with `Realises` on the plan
of the whole style sheet.

`src/Generator.ts` never uses the `Descriptor` class: it builds its elements with its own
character scanner. `Descriptor` is modelled on its own, as its file defines it. The code's default
position counts from the end (`from: 'end'`), and the model keeps that default.

## Model

| member | source | states |
|---|---|---|
| Utility.DifferingClasses | src/Utility.ts:35-41 | the counter is zero exactly when every class of the first list occurs in the second, and never exceeds the list's length |
| Utility.ElementsAreComparable | src/Utility.ts:24-42 | comparable iff the tags are equal ignoring ASCII case, the ids are equal, the class lists have equal length and every class of `a` is in `b` |
| Utility.ComparableIffSameClassSet | src/Utility.ts:24-42 | for duplicate-free class lists, comparable iff same tag ignoring case, same id and the same set of classes |
| Utility.ComparableSymmetric | src/Utility.ts:24-42 | for duplicate-free class lists, comparability does not depend on argument order |
| Utility.ComparableReflexive | src/Utility.ts:24-42 | every element is comparable to itself |
| Utility.ComparableTransitive | src/Utility.ts:24-42 | comparable to a comparable element means comparable |
| Utility.MergeElements | src/Utility.ts:50-69 | a tag or id conflict returns null and leaves the destination untouched; a `type` conflict returns null after the source id is copied; otherwise the destination gets the source's id if it has one, the source's non-empty `type`, and the duplicate-free union of the class lists, and is returned; the source never changes |
| Utility.MergedClassesSourceFirst | src/Utility.ts:62-67 | the merged class list is duplicate-free, holds exactly the non-empty classes of both lists, and starts with the source's classes in order |
| Utility.FirstTextIndex | src/Utility.ts:77-78 | the index found is a text node with no text node before it; none means no child is a text node |
| Utility.WithText | src/Utility.ts:76-84 | with a text child, the child count stays, the first text child holds the value and every other child is unchanged; without one, the old children come first and the value is one new last text child |
| Utility.ReplaceTextNode | src/Utility.ts:76-84 | the first text child gets the value and every other child stays; without a text child the value is appended as a new last text child |
| Utility.WithTextIsFirstText | src/Utility.ts:76-84 | after the replacement the element's first text child holds exactly the value |
| Utility.WithTextLastWriteWins | src/Utility.ts:76-84 | replacing twice is replacing once with the second value |
| Dom.Element.constructor | src/Descriptor.ts:69 | `createElement` gives a detached element with no children, no class, no id, no attribute, and the local name upper-cased as its tag name |
| Dom.Element.AddClass | src/Generator.ts:78-80 | a class already in the list is not added again; a new one goes last |
| Dom.Element.Append | src/Generator.ts:86-98 | the appended element becomes the last child, and its parent is the element appended to |
| Dom.Element.AppendText | src/Utility.ts:82 | appending a string adds exactly one text node, last, and keeps the earlier children |
| Dom.Element.GetAttribute | src/Utility.ts:56-57 | `null` exactly when the attribute is absent, and otherwise its value |
| Dom.ClassTokens | src/Descriptor.ts:84-86 | the class list from a list of names is duplicate-free, holds no empty name, and holds exactly the non-empty names |
| Dom.LowerOfUpper | src/Utility.ts:27 | lower-casing an upper-cased tag gives the lower-cased local name, so comparing `tagName.toLowerCase()` compares local names |
| Dom.ParseNatToString | src/Descriptor.ts:184 | the printed index reads back as the index |
| Dom.Join | src/Descriptor.ts:80 | JavaScript's `join`: the parts in order with the separator between each two; `Dom.JoinFront` proves the first part, then the separator, then the rest |
| Dom.JoinFront | src/Descriptor.ts:80 | a join of two or more parts is the first part, the separator and the join of the remaining parts |
| Config.NewOptions | src/Config.ts:7-20 | with no argument every field is its default; with an argument each field takes the supplied string value when there is one, and its default otherwise |
| Config.DefaultValues | src/Config.ts:8-12 | the defaults are remove, fill, style-only, merge and all |
| Config.EmptyArgumentIsNoArgument | src/Config.ts:14-20 | an argument that supplies nothing gives the same options as no argument |
| Config.FieldsAreIndependent | src/Config.ts:14-20 | changing one supplied field changes only that field of the options |
| Descriptors.ParsePositionFormula | src/Descriptor.ts:26-41 | a position is returned iff `a = 0` and `b >= 0`, and then it is `b` |
| Descriptors.AcceptedFormulaSelectsOnlyItsPosition | src/Descriptor.ts:19-41 | an accepted formula selects, in the sense of `an+b`, exactly the position it returns |
| Descriptors.PositiveStepSelectsSeveralPositions | src/Descriptor.ts:36-40 | a formula with `a > 0` is rejected, and it selects at least two positions |
| Descriptors.ResolvePosition | src/Descriptor.ts:107-124 | no pseudo-class keeps the default position; several, or an unknown name, invalidate; otherwise the position is explicit, `from` is end iff the name contains "last", the type is of-type iff it contains "type", and an `nth-*` name is valid iff its argument is `0n+b` with `b >= 1`, which becomes the index |
| Descriptors.ValidNthIndexIsTheSelectedPosition | src/Descriptor.ts:115-123 | a valid `nth-*` descriptor's index is exactly the one position its formula selects |
| Descriptors.SetAttributesKeepsOthers | src/Descriptor.ts:89-97 | a name no listed attribute carries keeps its value or its absence |
| Descriptors.SetAttributesLastWins | src/Descriptor.ts:89-97 | the last attribute of a name decides that attribute's value; a non-string value gives the empty string |
| Descriptors.SetAttributesOf | src/Descriptor.ts:89-97 | the loop of `setAttribute` calls leaves the attribute map that `SetAttributes` specifies |
| Descriptors.ContentReadsBack | src/Descriptor.ts:134-173 | for every element kind, the assigned content can be read back from its target, and an option also gets it as its value |
| Descriptors.ContentLastWriteWins | src/Descriptor.ts:134-173 | a second content assignment overwrites the first |
| Descriptors.StripQuotes | src/Descriptor.ts:137-139 | one character comes off each end exactly when the first and last characters are both quote marks and there are at least two characters; otherwise the value is unchanged |
| Descriptors.StripQuotesRoundTrip | src/Descriptor.ts:137-139 | a string quoted with any two quote marks comes back unchanged |
| Descriptors.ContentTargetFor | src/Descriptor.ts:141-172 | the target for each element kind, in the source's order: `a`, then audio/iframe/img/video, then input/textarea, then option, then select, then all others; `Descriptors.ContentReadsBack` proves each target holds the content afterwards |
| Descriptors.ApplyContent | src/Descriptor.ts:141-172 | what an assignment does to each target: one property, the first text node and `value` for an option, or the first text node; read back by `Descriptors.ContentReadsBack`, overwritten by `Descriptors.ContentLastWriteWins` |
| Descriptors.FormatSiblingSelector | src/Descriptor.ts:178-186 | the sibling selector built piece by piece; `Descriptors.SiblingSelectorRoundTrip` proves it reads back as the tag or `*`, the direction, the kind and the index |
| Descriptors.SiblingSelectorRoundTrip | src/Descriptor.ts:178-186 | the sibling selector reads back as the tag (or `*` for any child), the direction, the kind and the index of the position |
| Descriptors.Descriptor.constructor | src/Descriptor.ts:59-125 | the element gets the node's tag or `div`; a wildcard tag or a pseudo-element makes the descriptor invalid with nothing else set; otherwise the element gets the joined ids, the class tokens, the attributes and the content (when non-empty), the combinator defaults to a space, and the position and validity are those `ResolvePosition` gives |
| Descriptors.Descriptor.Describe | src/Descriptor.ts:78-124 | the steps after the validity check set ids, classes, attributes, content, combinator and position as above, and leave the tag and parent alone |
| Descriptors.Descriptor.SetPosition | src/Descriptor.ts:107-124 | the validity flag and position become those `ResolvePosition` gives |
| Descriptors.Descriptor.SetContent | src/Descriptor.ts:130-173 | the getter returns the raw value afterwards; the quote-stripped value lands where the element's kind takes it: `href`, `src`, `placeholder`, first text node and `value`, `value`, or first text node |
| Descriptors.Descriptor.Content | src/Descriptor.ts:130-132 | the getter returns the raw value, quotes included, that `SetContent` last stored |
| Descriptors.Descriptor.SiblingSelector | src/Descriptor.ts:178-186 | the selector for the element's tag name and the descriptor's position, read back by `Descriptors.SiblingSelectorRoundTrip` |
| Generator.CollapseChildCombinators | src/Generator.ts:41 | the first character is kept, no two `>` remain adjacent, and `>` occurs in the result iff it occurs in the input |
| Generator.CollapseLeavesCollapsed | src/Generator.ts:41 | a selector without a run of `>` is left alone, so collapsing is idempotent |
| Generator.Skipped | src/Generator.ts:30-36 | media rules, selectors starting with `*` and selectors containing `:` are skipped; `Generator.SkippedRuleAddsNothing` proves they add nothing |
| Generator.RemoveSpaces | src/Generator.ts:42 | no space remains, and every other character occurs as often as in the input |
| Generator.RemoveSpacesConcat | src/Generator.ts:42 | removing spaces from a concatenation is removing them from each part, so the other characters keep their order |
| Generator.ReplaceAsWritten | src/Generator.ts:40 | the first replacement as written, where each match consumes the character after the white space; `Generator.AsWrittenFusesCompounds` shows the input it gets wrong |
| Generator.ReplaceCorrected | src/Generator.ts:40 | the first replacement as intended, with the character after the white space only looked at; `Generator.ReplaceLeavesNoGap` proves it leaves no gap |
| Generator.ReplaceLeavesNoGap | src/Generator.ts:40 | after the (corrected) first replacement no descendant-combinator gap remains anywhere |
| Generator.ReplaceKeepsEssential | src/Generator.ts:40 | the first replacement drops only white space and adds only `>` |
| Generator.CollapseKeepsEssential | src/Generator.ts:41 | collapsing runs of `>` changes nothing but `>` |
| Generator.RemoveSpacesKeepsEssential | src/Generator.ts:42 | removing spaces changes nothing but white space |
| Generator.NormaliseSelector | src/Generator.ts:39-42 | the normalised selector holds no space, and its characters other than white space and `>` are the input's, in order |
| Generator.NormaliseSeparatesCompounds | src/Generator.ts:39-42 | compound selectors separated by single spaces come out intact and separated by `>`: `div.a p#b span` becomes `div.a>p#b>span` |
| Generator.NormaliseSelectorAsWritten | src/Generator.ts:39-42 | the three replacements exactly as written; `Generator.AsWrittenFusesCompounds` shows `a b c` becoming `a>bc` |
| Generator.AsWrittenFusesCompounds | src/Generator.ts:39-42 | as written, `a b c` becomes `a>b c` and then `a>bc`; corrected, it becomes `a>b>c` |
| Generator.AddChar | src/Generator.ts:53-64 | with no address character the character extends the tag; after `.` it extends the last class; after `#` it extends the id; the other two fields stay, the number of classes, the previous-element flag and the combinator stay, and the character is remembered |
| Generator.Cleared | src/Generator.ts:65-71 | `clear` gives the initial state except that the previous-element flag and the combinator are kept |
| Generator.Emit | src/Generator.ts:76-98 | the element goes to the output exactly when there is no previous element, into the previous element exactly when there is one and the combinator is `>`, and carries the collected tag, class names and id |
| Generator.Step | src/Generator.ts:104-140 | an element is created iff a compound selector had begun and the character is not a name, `.` or `#` character; it is the element the state describes, and afterwards a previous element exists and a new compound begins |
| Generator.ScanThenName | src/Generator.ts:53-64 | reading a run of name characters creates nothing and extends the tag, the last class or the id by the whole run |
| Generator.ScanThenClass | src/Generator.ts:120-124 | inside a compound, `.` followed by a name pushes a new class name and fills it with the name |
| Generator.ScanThenId | src/Generator.ts:125-128 | inside a compound, `#` followed by a name extends the id by the name |
| Generator.ScanThenStop | src/Generator.ts:135-139 | inside a compound, the `%` stop character creates the element the state describes |
| Generator.CompoundFields | src/Generator.ts:53-139 | the selector `t.c#d` creates exactly one element, at the output, with tag `t`, class names `""` and `c`, and id `d` |
| Generator.Scan | src/Generator.ts:104-140 | after the loop a previous element exists iff one existed or some element was created, and a first element created without a previous one goes to the output |
| Generator.OnlyFirstAtRoot | src/Generator.ts:86-98 | an element goes to the output only when it is the first one and no previous element existed |
| Generator.Emissions | src/Generator.ts:103-140 | the elements a normalised selector creates when read with the stop character; `Generator.FirstEmissionAtRoot` and `Generator.CompoundFields` state what they are |
| Generator.FirstEmissionAtRoot | src/Generator.ts:86-98 | each selector's first element goes to the output and every later one into or beside an earlier one |
| Generator.Planned | src/Generator.ts:86-98 | after `>` the new element's planned parent is the previous element |
| Generator.PlanOfRules | src/Generator.ts:25-141 | the planned tree of a rule list, rule by rule; `Generator.EarlierRulesUntouched` and `Generator.SkippedRuleAddsNothing` state how it grows |
| Generator.Extend | src/Generator.ts:104-140 | the plan grows by one entry per created element and keeps its earlier entries |
| Generator.CompoundDescriptor.constructor | src/Generator.ts:45-52 | a new descriptor is in the initial state, with no previous element |
| Generator.CompoundDescriptor.Add | src/Generator.ts:53-64 | the descriptor's state moves as `AddChar` says |
| Generator.CompoundDescriptor.Clear | src/Generator.ts:65-71 | everything but the previous element and the combinator is reset |
| Generator.CompoundDescriptor.CreateElement | src/Generator.ts:76-84 | a new detached element with the tag (or `div`) upper-cased, the class tokens and the id, and no child, attribute, `href`, `src`, `placeholder` or `value` |
| Generator.CompoundDescriptor.AppendTarget | src/Generator.ts:86-98 | the element appended to is the output with no previous element, the previous element after `>`, and the previous element's parent otherwise, which is the parent the plan gives; that parent always exists |
| Generator.CompoundDescriptor.AddElementToOutput | src/Generator.ts:74-101 | the tree grows by exactly the planned element for the current state, which becomes the previous element |
| Generator.CompoundDescriptor.ReadCharacter | src/Generator.ts:104-140 | one loop turn moves the state as `Step` says, and the tree grows by the planned element exactly when `Step` creates one |
| Generator.CompoundDescriptor.StartCompound | src/Generator.ts:106-115 | at the start of a compound selector, the state moves as `Step` says: a combinator is recorded, `.` or `#` becomes the address character, anything else is added |
| Generator.CompoundDescriptor.ContinueCompound | src/Generator.ts:116-128 | inside a compound selector, a name character, `.` or `#` moves the state as `Step` says and creates nothing |
| Generator.CompoundDescriptor.AddElementAndClear | src/Generator.ts:131-138 | the element is added as planned, then the state is cleared with a previous element recorded |
| Generator.AppendPlanned | src/Generator.ts:86-98 | appending a new element to its planned parent leaves the heap realising the extended plan |
| Generator.FeedCharacter | src/Generator.ts:104-140 | after reading one more character the descriptor's state and the tree are those the scanner gives for the longer prefix |
| Generator.AppendSelector | src/Generator.ts:103-140 | after the selector and the stop character are read, the tree has grown by exactly the selector's planned elements, all of them new |
| Generator.CssToHtml | src/Generator.ts:6-144 | the result is a fresh `body` element holding exactly the tree planned by the kept rules, and nothing when no rule list is available; every element in it is new, and carries its planned tag, classes and id and no attribute, `href`, `src`, `placeholder` or `value` |
| Generator.ExtendWellNested | src/Generator.ts:86-98 | every planned element's parent is planned before it |
| Generator.SelectorTreesAreSeparate | src/Generator.ts:86-98 | a selector's elements hang only under the output or under elements of the same selector |
| Generator.SkippedRuleAddsNothing | src/Generator.ts:30-36 | a skipped rule adds nothing to the tree |
| Generator.EarlierRulesUntouched | src/Generator.ts:25-141 | later rules never change what earlier rules built: the plan only grows |

## Left out

- Reading a style sheet from a string (`document.implementation`, the `<style>` element and
  `sheet.cssRules`) is browser I/O. `CssToHtml` takes the resulting rule list, or `None` when
  there is none.
- `createCSSOM` and `sanitizeElement` (DOMPurify) in `src/Utility.ts` lie outside the modelled
  core.
- Rule kinds other than style and media rules are not modelled. An import or font-face rule has no
  `selectorText`, and the source would throw on it.
- `createElement` with a name that is not a valid element name throws in the browser. The model
  creates the element regardless.
- `setAttribute` lower-cases the attribute name in an HTML document. The model keeps names as
  given.
- Utility.ElementsAreComparable: compares tag names with ASCII lower-casing. JavaScript's
  `toLowerCase` also folds non-ASCII letters, so `Ä` and `ä` are comparable in the source but
  not in the model. The model covers ASCII tag names only.
- Dom.LowerOfUpper: holds for ASCII case mapping only. For a non-ASCII tag name, comparing
  `tagName.toLowerCase()` is not comparing local names.
- Dom.Element: keeps `id` and the class list apart from the attribute map. In the DOM they are
  the `id` and `class` attributes, so `setAttribute('id', v)` sets the id and
  `setAttribute('class', v)` replaces the class list.
- Descriptors.SetAttributesOf: writes only the attribute map. For an attribute named `id` or
  `class`, the source's element also gets that id or that class list.
- Descriptors.Descriptor.constructor: for `div[class="x"]` the source's class list is `x`, and
  for `[id="y"]` its id is `y`. The model's ensures give the class tokens and the joined ids of
  the selector instead.
- Descriptors.Descriptor.Describe: the same `id` and `class` attribute limit as the
  constructor.
- Descriptors.Descriptor.SetContent: the content target is chosen from the element's local name,
  which is how `createElement` chooses the interface. Setter normalisation of `href` and `src`
  (URL resolution) is not modelled, and the stored value is the assigned string.
- Descriptors.ParsePositionFormula: takes integer operands. The source's `Number.isInteger` check
  on fractional numbers has no counterpart, because the parser only produces integers here.
- Dom.NatToString: prints indices the way JavaScript prints integers below 10^21. Exponent
  notation for larger numbers is not modelled.
- Dom.ClassTokens: assumes that class names contain no white space, as the selector parser
  guarantees. With that, setting `className` to the names joined by spaces equals adding them one
  by one.
- Config.NewOptions: a supplied string outside an option's union is not modelled, because the
  option types are enumerations. A field that is not a string is `None` and keeps its default.
- Generator.NormaliseSelector: does not promise that no `>>` remains. `a> >b` becomes `a>>b`,
  which the scanner reads like `a>b`.
- Generator.CompoundDescriptor.AppendTarget: the source's optional chaining
  (`parentElement?.append`) is modelled as a plain append. The model proves the parent always
  exists.
- The model uses the corrected first replacement of `src/Generator.ts:40` (see Findings). The
  as-written one is modelled beside it, with the input that shows the difference.

## Findings

| source | as written | input that shows it | evidently intended | confidence | as-written member | corrected member |
|---|---|---|---|---|---|---|
| src/Generator.ts:40 | `replaceAll(/([\w-])\s+([\w-\.\#])/g, '$1>$2')` consumes the character after the white space, so it cannot start the next match; a one-character compound between two descendant combinators keeps its space, and the later space removal fuses two compounds | `a b c` gives `a>b c`, then `a>bc` | every descendant combinator between compounds becomes `>`: `a>b>c` (a lookahead for the second group) | not executed | Generator.AsWrittenFusesCompounds | Generator.ReplaceLeavesNoGap |
