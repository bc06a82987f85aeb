/** Numeric formatters and the cache of compiled printf formats
    (`Decoders.createNumberFormat`, `Decoders.formatterCache` and
    `Decoders.PrintfFormat`). What `String.format` accepts is the JDK's
    business: it enters the model as a `probe` predicate, true when
    `String.format(pattern, 0.0)` returns without throwing. The library class
    `NumberFormats`, whose `precisionFormat` the decoders call, is not this
    module: it appears only as the `Precision` formatter. */
module PrintfFormats {
  import opened Wrappers

  /** A `PrintfFormat`: its final `format` field is the pattern when the probe
      accepted it and null otherwise. */
  datatype PrintfFormat = PrintfFormat(format: Option<string>)

  /** The formatters a display can carry: the "no display" default
      (`Display.none().getFormat()`), `NumberFormats.precisionFormat(digits)`,
      or a compiled printf format. */
  datatype Formatter = Default | Precision(digits: int) | Printf(printf: PrintfFormat)

  /** The `PrintfFormat` constructor: probe the pattern once, keep it only if
      the probe succeeded. Never fails. */
  function NewPrintfFormat(pattern: string, probe: string -> bool): (f: PrintfFormat)
    ensures f.format.Some? <==> probe(pattern)
    ensures f.format.Some? ==> f.format.value == pattern
  {
    PrintfFormat(if probe(pattern) then Some(pattern) else None)
  }

  /** What `internalFormat` hands back for a number: printf output of the
      kept pattern, or `String.valueOf(number)`. */
  datatype Rendered = Formatted(pattern: string, number: int) | Plain(number: int)

  function InternalFormat(f: PrintfFormat, number: int): Rendered {
    match f.format
    case Some(p) => Formatted(p, number)
    case None => Plain(number)
  }

  /** A pattern that fails its probe yields a formatter that prints every
      number plainly; one that passes formats with exactly that pattern. */
  lemma ProbeFallback(pattern: string, probe: string -> bool, number: int)
    ensures !probe(pattern) ==> InternalFormat(NewPrintfFormat(pattern, probe), number) == Plain(number)
    ensures probe(pattern) ==> InternalFormat(NewPrintfFormat(pattern, probe), number) == Formatted(pattern, number)
  {
  }

  /** Java's `s.trim().isEmpty()`: trim strips every char up to U+0020. */
  predicate IsBlank(s: string) {
    forall i :: 0 <= i < |s| ==> s[i] <= ' '
  }

  /** The patterns `createNumberFormat` answers with the default formatter
      without touching the cache: null, blank, or "%s". */
  predicate UsesDefault(printfFormat: Option<string>) {
    printfFormat.None? || IsBlank(printfFormat.value) || printfFormat.value == "%s"
  }

  /** The formatter `createNumberFormat` returns for a pattern, whatever the
      cache held. */
  function Resolve(printfFormat: Option<string>, probe: string -> bool): (f: Formatter)
    ensures UsesDefault(printfFormat) <==> f == Default
    ensures !UsesDefault(printfFormat) ==> f == Printf(NewPrintfFormat(printfFormat.value, probe))
  {
    if UsesDefault(printfFormat) then Default
    else Printf(NewPrintfFormat(printfFormat.value, probe))
  }

  /** `formatterCache`, an insert-only map from pattern to compiled format. */
  class FormatCache {
    const probe: string -> bool
    var entries: map<string, Formatter>

    /** Every entry is what compiling its key gives, and no key is one of
        the default patterns: a lookup can stand in for a compilation. */
    ghost predicate Valid()
      reads this
    {
      forall k :: k in entries ==>
        !UsesDefault(Some(k)) && entries[k] == Printf(NewPrintfFormat(k, probe))
    }

    constructor (probe: string -> bool)
      ensures Valid() && this.probe == probe && entries == map[]
    {
      this.probe := probe;
      entries := map[];
    }

    /** `createNumberFormat`: the result never depends on what the cache
        held; the default patterns leave it alone, any other pattern ends up
        mapped to the returned formatter, and no other key changes. */
    method CreateNumberFormat(printfFormat: Option<string>) returns (f: Formatter)
      requires Valid()
      modifies this
      ensures Valid()
      ensures f == Resolve(printfFormat, probe)
      ensures UsesDefault(printfFormat) ==> entries == old(entries)
      ensures !UsesDefault(printfFormat) ==> entries == old(entries)[printfFormat.value := f]
    {
      if printfFormat.None? || IsBlank(printfFormat.value) || printfFormat.value == "%s" {
        return Default;
      }
      var key := printfFormat.value;
      if key in entries {
        return entries[key];
      }
      f := Printf(NewPrintfFormat(key, probe));
      entries := entries[key := f];
    }
  }

  /** Two calls with the same pattern return the same formatter, and the
      second leaves the cache as the first left it. */
  method CreateNumberFormatTwice(cache: FormatCache, printfFormat: Option<string>) returns (f1: Formatter, f2: Formatter)
    requires cache.Valid()
    modifies cache
    ensures cache.Valid()
    ensures f1 == f2
    ensures old(cache.entries).Keys <= cache.entries.Keys
    ensures forall k :: k in old(cache.entries) ==> cache.entries[k] == old(cache.entries)[k]
  {
    f1 := cache.CreateNumberFormat(printfFormat);
    ghost var between := cache.entries;
    f2 := cache.CreateNumberFormat(printfFormat);
    assert cache.entries == between;
  }
}
