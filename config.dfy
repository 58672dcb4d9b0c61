/**
 * The compiler's options record (src/Config.ts): five string-valued settings, each taking the
 * caller's value when one is supplied and its default otherwise.
 */
module Config {

  import opened Wrappers

  datatype DuplicatesOption = Preserve | Remove
  datatype FillOption = Fill | NoFill
  datatype ImportsOption = Include | StyleOnly
  datatype MergeNthOption = Merge | NoMerge
  datatype SanitizationOption = All | Imports | Off

  datatype Options = Options(
    duplicates: DuplicatesOption,
    fill: FillOption,
    imports: ImportsOption,
    mergeNth: MergeNthOption,
    sanitize: SanitizationOption)

  /**
   * A `Partial<Options>` argument.  `None` in a field is a value that is not a string
   * (`undefined` when the caller left the field out).
   */
  datatype PartialOptions = PartialOptions(
    duplicates: Option<DuplicatesOption>,
    fill: Option<FillOption>,
    imports: Option<ImportsOption>,
    mergeNth: Option<MergeNthOption>,
    sanitize: Option<SanitizationOption>)

  /** The field initialisers of the `Options` class. */
  const Defaults := Options(Remove, Fill, StyleOnly, Merge, All)

  /** A partial argument that supplies nothing. */
  const NothingSupplied: PartialOptions := PartialOptions(None, None, None, None, None)

  /**
   * `new Options(options?)`: each field is the supplied value when `options` is present and that
   * field holds a string, and the default otherwise.
   */
  function NewOptions(options: Option<PartialOptions>): (r: Options)
    ensures options.None? ==> r == Defaults
    ensures options.Some? ==>
      && (options.value.duplicates.Some? ==> r.duplicates == options.value.duplicates.value)
      && (options.value.fill.Some? ==> r.fill == options.value.fill.value)
      && (options.value.imports.Some? ==> r.imports == options.value.imports.value)
      && (options.value.mergeNth.Some? ==> r.mergeNth == options.value.mergeNth.value)
      && (options.value.sanitize.Some? ==> r.sanitize == options.value.sanitize.value)
    ensures options.Some? ==>
      && (options.value.duplicates.None? ==> r.duplicates == Defaults.duplicates)
      && (options.value.fill.None? ==> r.fill == Defaults.fill)
      && (options.value.imports.None? ==> r.imports == Defaults.imports)
      && (options.value.mergeNth.None? ==> r.mergeNth == Defaults.mergeNth)
      && (options.value.sanitize.None? ==> r.sanitize == Defaults.sanitize)
  {
    var defaults := Defaults;
    match options
    case None => defaults
    case Some(o) =>
      Options(
        o.duplicates.GetOr(defaults.duplicates),
        o.fill.GetOr(defaults.fill),
        o.imports.GetOr(defaults.imports),
        o.mergeNth.GetOr(defaults.mergeNth),
        o.sanitize.GetOr(defaults.sanitize))
  }

  /** The defaults are: remove duplicates, fill, style rules only, merge nth, sanitize everything. */
  lemma DefaultValues()
    ensures NewOptions(None) == Options(Remove, Fill, StyleOnly, Merge, All)
  {
  }

  /** Passing an argument that supplies nothing is the same as passing none. */
  lemma EmptyArgumentIsNoArgument()
    ensures NewOptions(Some(NothingSupplied)) == NewOptions(None)
  {
  }

  /**
   * Supplying one option never changes any other field: two arguments that agree on every field
   * but `duplicates` give options that agree on every field but `duplicates`; likewise for the others.
   */
  lemma FieldsAreIndependent(p: PartialOptions, q: PartialOptions)
    ensures p.(duplicates := q.duplicates) == q ==>
      NewOptions(Some(p)).(duplicates := NewOptions(Some(q)).duplicates) == NewOptions(Some(q))
    ensures p.(fill := q.fill) == q ==>
      NewOptions(Some(p)).(fill := NewOptions(Some(q)).fill) == NewOptions(Some(q))
    ensures p.(imports := q.imports) == q ==>
      NewOptions(Some(p)).(imports := NewOptions(Some(q)).imports) == NewOptions(Some(q))
    ensures p.(mergeNth := q.mergeNth) == q ==>
      NewOptions(Some(p)).(mergeNth := NewOptions(Some(q)).mergeNth) == NewOptions(Some(q))
    ensures p.(sanitize := q.sanitize) == q ==>
      NewOptions(Some(p)).(sanitize := NewOptions(Some(q)).sanitize) == NewOptions(Some(q))
  {
  }
}
