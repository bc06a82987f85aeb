# PV Access value decoding, modelled in Dafny

This project models the part of the phoebus PV Access client that turns an
already-deserialised pvAccess structure into a typed value (a VType) with
alarm, time and display metadata. Structures may carry one of the EPICS
"Normative Types" tags: NTScalar, NTEnum, NTScalarArray, NTNDArray or NTTable.

The modules follow the source:

- `PvaData` (pva_data.dfy) holds the input. A structure is a type name plus
  an ordered list of named fields. Each field is a number, a string, a
  boolean, an array, a nested structure or a union. `Get` is
  `PVAStructure.get(name)`. The typed lookups (`GetInt`, `GetStructure`, ...)
  return what `T x = struct.get(name)` gives in Java: null (`Absent`), the
  field (`Found`), or a ClassCastException (`WrongType`).
- `PrintfFormats` (printf_formats.dfy) holds `PrintfFormat`, the `Formatter`
  kinds and `FormatCache`, a class with an insert-only
  `map<string, Formatter>` standing for the static `formatterCache`.
- `VTypes` (vtypes.dfy) holds the output metadata: the AlarmSeverity and
  AlarmStatus enumerations in `values()` order, Alarm, `Instant` with
  `Instant.ofEpochSecond`'s normalisation and range check, Time, Range and
  Display.
- `Decoders` (decoders.dfy) holds `decodeAlarm`, `decodeTime`,
  `decodeDisplay` as a pure specification plus a method on the cache, and
  `decodeDouble`.
- `PVAStructureHelper` (structure_helper.dfy) holds `getVType`:
  sub-field resolution, tag stripping and matching, and the shape-based
  fallback. It also holds `decodeScalar`, `decodeNTArray` and
  `decodeNTTable`, the last with its column loop.

Java exceptions are modelled as `Err` values of `DecodeError`, not as
preconditions:

- ClassCastException: a section or field has the wrong class.
- NullPointerException: the table is missing `labels` or `value`.
- ArrayIndexOutOfBoundsException: an alarm code is outside the enumeration.
  The open question of out-of-range ordinals is settled this way: the decode
  fails, as the code does.
- DateTimeException: a timestamp is outside `Instant`'s range.
- "Expected struct with scalar 'value'": thrown by decodeScalar.

The decoders whose bodies are not in the source files are result
constructors. They record which decoder was chosen and what it was given:
`ScalarValue(DecodeNumber | DecodeString, ...)`,
`ArrayValue(DoubleArray | ... | StringArray, ...)`, `EnumValue` and
`ImageValue`.

In these places the model follows the code rather than what a caller might
expect:

- The table's names are the `labels` verbatim. The columns follow the
  declaration order of the `value` structure. Nothing matches labels to
  columns, and the numbers of names and columns may differ.
- A missing or mistyped `labels` or `value` in an NTTable throws. It does
  not degrade to an "Unsupported" value.
- A format string that fails its probe gives a `PrintfFormat` with a null
  pattern. That formatter prints numbers with `String.valueOf`; it is not the
  default formatter.
- Metadata sections of the wrong class make `decodeDouble` throw a
  ClassCastException. Scalar decodes can therefore fail for more reasons
  than a non-scalar `value`.
- Time validity is decided on the normalised `Instant`. Seconds 0 with a
  nanosecond adjustment of 10^9 is valid. Seconds 1 with an adjustment of
  -1 is not (`Decoders.TimeValidity`).

## Model

| member | source | states |
|---|---|---|
| `VTypes.SeverityOrdinal` | src/main/java/org/phoebus/pv/npva/Decoders.java:66-69 | every severity sits at its ordinal in `AlarmSeverity.values()` |
| `VTypes.StatusOrdinal` | src/main/java/org/phoebus/pv/npva/Decoders.java:71-74 | every status sits at its ordinal in `AlarmStatus.values()` |
| `VTypes.SeverityOf` | src/main/java/org/phoebus/pv/npva/Decoders.java:66-69 | `values()[code]` is defined exactly for 0 <= code < 5, and is the severity whose ordinal is `code` |
| `VTypes.StatusOf` | src/main/java/org/phoebus/pv/npva/Decoders.java:71-74 | `values()[code]` is defined exactly for 0 <= code < 8, and is the status whose ordinal is `code` |
| `Decoders.DecodeAlarm` | src/main/java/org/phoebus/pv/npva/Decoders.java:56-86 | no section gives NONE/NONE/"NONE"; in a section, a missing code gives UNDEFINED, a present code maps by ordinal, a missing message gives "<null>"; it fails exactly on a wrongly-typed field or an out-of-range code |
| `Decoders.AlarmOrdinals` | src/main/java/org/phoebus/pv/npva/Decoders.java:63-85 | every in-range pair of codes decodes to the enum values at those positions, with the message unchanged |
| `VTypes.OfEpochSecond` | src/main/java/org/phoebus/pv/npva/Decoders.java:99-102 | the instant is defined exactly when the total time lies in Instant's range; it keeps seconds*10^9+nanos and has 0 <= nanos < 10^9 |
| `Decoders.DecodeTime` | src/main/java/org/phoebus/pv/npva/Decoders.java:88-112 | no section, or a missing seconds or nanoseconds field, gives epoch 0; a present pair decodes exactly when `Instant.ofEpochSecond` accepts it, to that instant, and fails with the out-of-range error otherwise; a missing user tag gives 0; valid is exactly seconds > 0; wrongly-typed fields fail |
| `Decoders.TimeValidity` | src/main/java/org/phoebus/pv/npva/Decoders.java:97-111 | read on the raw fields, valid means seconds*10^9 + nanoseconds >= 10^9 |
| `Decoders.TimeExact` | src/main/java/org/phoebus/pv/npva/Decoders.java:97-111 | a normalised timestamp after the epoch is kept exactly, with its user tag, and is valid |
| `Decoders.FormatRequestOf` | src/main/java/org/phoebus/pv/npva/Decoders.java:193-228 | without precision, the legacy format string is compiled, or the default is used when there is none; with precision, the choice is the precision, hex or exponential format for that precision; only a ClassCast can fail |
| `Decoders.FormPriority` | src/main/java/org/phoebus/pv/npva/Decoders.java:194-219 | form index 4 gives "0x%X" whatever the precision; 5 and 6 give "%.<prec>E"; a missing index counts as 0; any other index, or no form, gives the precision format |
| `Decoders.PrecisionIgnoresFormat` | src/main/java/org/phoebus/pv/npva/Decoders.java:194-228 | when precision is present, two sections that differ only in their `format` field choose the same formatter |
| `Decoders.DisplayOf` | src/main/java/org/phoebus/pv/npva/Decoders.java:180-261 | no display section gives empty units, the default format and an undefined display range; no control or valueAlarm section gives undefined ranges; in a present section each bound is the number in its field, or undefined when the field is absent or not a number; a present display section's formatter is the compiled form of the request `FormatRequestOf` chooses (precision and form first, then the legacy format); it succeeds exactly when the `display`, `control` and `valueAlarm` sections and the display fields it reads (`units`, `precision`, `form`, `form.index`, `format`) have the right class, and otherwise fails with a ClassCast |
| `Decoders.PrecisionDisplay` | src/main/java/org/phoebus/pv/npva/Decoders.java:194-219 | a well-typed display section with precision p and no form decodes, with the precision-p formatter |
| `Decoders.DecodeDisplay` | src/main/java/org/phoebus/pv/npva/Decoders.java:180-261 | the method on the shared cache returns what `DisplayOf` specifies, whatever the cache held, and it enters only the pattern the section asked to compile |
| `Decoders.NoMetadata` | src/main/java/org/phoebus/pv/npva/Decoders.java:56-261 | a structure with no metadata sections gets NONE/NONE/"NONE", the invalid epoch-0 time and `Display.none()` |
| `Decoders.DecodeDouble` | src/main/java/org/phoebus/pv/npva/Decoders.java:48-54 | the payload with alarm, time and display of the enclosing structure; the first failing metadata decoder decides the error, and a failed alarm or time leaves the cache untouched |
| `PrintfFormats.NewPrintfFormat` | src/main/java/org/phoebus/pv/npva/Decoders.java:138-149 | the pattern is kept exactly when its probe succeeds; the constructor never fails |
| `PrintfFormats.ProbeFallback` | src/main/java/org/phoebus/pv/npva/Decoders.java:141-157 | `InternalFormat` (`PrintfFormat.internalFormat`) prints every number plainly with a pattern that failed its probe, and formats with the pattern when it passed |
| `PrintfFormats.Resolve` | src/main/java/org/phoebus/pv/npva/Decoders.java:117-131 | null, blank (trim is empty) and "%s" give the default formatter and nothing else does; any other pattern gives its compiled PrintfFormat |
| `PrintfFormats.FormatCache.constructor` | src/main/java/org/phoebus/pv/npva/Decoders.java:43-45 | the cache starts empty and consistent |
| `PrintfFormats.FormatCache.CreateNumberFormat` | src/main/java/org/phoebus/pv/npva/Decoders.java:117-132 | the result is `Resolve` of the pattern whatever the cache held; default patterns leave the cache unchanged; any other pattern ends up mapped to the returned formatter with no other key changed; every entry is what compiling its key gives |
| `PrintfFormats.CreateNumberFormatTwice` | src/main/java/org/phoebus/pv/npva/Decoders.java:125-130 | two calls with the same pattern return the same formatter; keys are never removed or rebound |
| `PVAStructureHelper.NormalizeTag` | src/main/java/org/phoebus/pv/npva/PVAStructureHelper.java:55-57 | a leading "epics:nt/" is removed and any other name is left as it is |
| `PVAStructureHelper.TagOf` | src/main/java/org/phoebus/pv/npva/PVAStructureHelper.java:58-67 | a stripped tag matches a Normative Type exactly when it equals that type's versioned tag |
| `PVAStructureHelper.TagMatching` | src/main/java/org/phoebus/pv/npva/PVAStructureHelper.java:55-67 | a type name names a Normative Type exactly when it is the ":1.0" tag, with or without the namespace |
| `PVAStructureHelper.DecodeScalar` | src/main/java/org/phoebus/pv/npva/PVAStructureHelper.java:89-97 | fails exactly when `value` is neither a number nor a string; otherwise the number or string decoder gets `value` with the structure as metadata |
| `PVAStructureHelper.ArrayDecoderOf` | src/main/java/org/phoebus/pv/npva/PVAStructureHelper.java:153-167 | exactly number and string arrays have an array decoder |
| `PVAStructureHelper.ArrayDecodersDistinct` | src/main/java/org/phoebus/pv/npva/PVAStructureHelper.java:153-167 | two arrays share a decoder exactly when their element kinds are the same (double, float, long, int, short, byte, string) |
| `PVAStructureHelper.DecodeNTArray` | src/main/java/org/phoebus/pv/npva/PVAStructureHelper.java:151-171 | it never fails; a supported array goes to the decoder of its element kind, and anything else gives UNDEFINED/CLIENT/"Unknown array type" |
| `PVAStructureHelper.IntColumns` | src/main/java/org/phoebus/pv/npva/PVAStructureHelper.java:126-134 | an int column is typed as int either way, and is an unsigned array exactly when its unsigned flag is set |
| `PVAStructureHelper.Columns` | src/main/java/org/phoebus/pv/npva/PVAStructureHelper.java:112-141 | a table never has more columns than the `value` structure has fields |
| `PVAStructureHelper.ColumnsAppend` | src/main/java/org/phoebus/pv/npva/PVAStructureHelper.java:112-141 | the columns of concatenated field lists are the concatenated columns, so declaration order is kept |
| `PVAStructureHelper.UnsupportedColumnSkipped` | src/main/java/org/phoebus/pv/npva/PVAStructureHelper.java:112-141 | an unsupported column is dropped without disturbing the columns around it |
| `PVAStructureHelper.SupportedColumnsKept` | src/main/java/org/phoebus/pv/npva/PVAStructureHelper.java:112-141 | when every field is a supported column, each one is kept at its own position |
| `PVAStructureHelper.TableOf` | src/main/java/org/phoebus/pv/npva/PVAStructureHelper.java:104-144 | it succeeds exactly when `labels` and `value` are there and well typed; names are the labels verbatim; types and values have equal length, the number of supported columns, and agree with them index by index |
| `PVAStructureHelper.DecodeNTTable` | src/main/java/org/phoebus/pv/npva/PVAStructureHelper.java:104-144 | the loop appending to `types` and `values` computes `TableOf` |
| `PVAStructureHelper.TableExample` | src/main/java/org/phoebus/pv/npva/PVAStructureHelper.java:104-144 | labels x, y with two double columns and a short column decode to the two double columns only |
| `PVAStructureHelper.Dispatch` | src/main/java/org/phoebus/pv/npva/PVAStructureHelper.java:40-82 | `getVType` as a function; it can only fail with NotScalar, a missing table field or a ClassCast |
| `PVAStructureHelper.GetVType` | src/main/java/org/phoebus/pv/npva/PVAStructureHelper.java:40-82 | the if-chain, with the table decoded by its loop, computes `Dispatch` |
| `PVAStructureHelper.SubFieldResolution` | src/main/java/org/phoebus/pv/npva/PVAStructureHelper.java:42-52 | a requested nested structure becomes the decode target; a requested number or string is decoded directly with the original structure as metadata; otherwise the request changes nothing |
| `PVAStructureHelper.TagRouting` | src/main/java/org/phoebus/pv/npva/PVAStructureHelper.java:58-67 | NTScalar goes to scalar, NTEnum to enum, NTScalarArray to array, NTNDArray to image and NTTable to table |
| `PVAStructureHelper.ShapeFallback` | src/main/java/org/phoebus/pv/npva/PVAStructureHelper.java:69-81 | without a known tag, a number or string `value` is a scalar and an array `value` an array; otherwise the result is UNDEFINED/CLIENT/"Unknown type"; none of these branches of `getVType` throws (failures inside the payload decoders are not modelled) |
| `PVAStructureHelper.FailureIsolation` | src/main/java/org/phoebus/pv/npva/PVAStructureHelper.java:40-97 | within `getVType`, `decodeScalar` and `decodeNTTable`, only an NTScalar without a scalar `value` and an NTTable whose table decode fails throw; failures inside the payload decoders are not modelled |

## Left out

- `Decoders.decodeNumber`, `decodeString`, `decodeEnum`, the `decode*Array` decoders and `ImageDecoder.decode`: their bodies are not part of this model. The result records which one was chosen and what it was given. So the enum's pass-through of an out-of-range index is not modelled.
- `PVAStructureHelper.getDoubleValue` is not part of this model. Range bounds follow the way it is used: a number field gives its value, and anything else gives NaN, modelled as `None`.
- `PVAStructure.get`, the PVA data classes, `VTable.of`, `Range.of`, `Display.none()` and `NumberFormats.precisionFormat` come from libraries. They are modelled only by the behaviour the core relies on. `precisionFormat(n)` is the constructor `Precision(n)`. `Display.none()` is taken to have empty units, the default format and undefined ranges. `VTable.of` and `Range.of` keep their arguments unchecked.
- Floating point: floating payloads and bounds are uninterpreted integer codes. A NaN stored in a field is therefore not told apart from other numbers. Rounding and formatting output are not modelled.
- `String.format`: whether a pattern passes the probe `String.format(pattern, 0.0)` is the cache's `probe` parameter. Printf output is a `Formatted(pattern, number)` term, not text.
- Integer widths: the value of an int or long field is whatever Java's `get()` returns, and 32/64-bit ranges are not enforced.
- VTypes.OfEpochSecond: the ArithmeticException of `Math.addExact` is merged with the out-of-range DateTimeException. Both are errors, and the overflow happens only outside Instant's range.
- `Time.now()` in the "Unknown type" and "Unknown array type" values reads a clock, so the timestamp is left out. The `struct.format()` text dump is represented by the structure itself.
- Null string values inside a structure: the strings of a deserialised structure are taken to be non-null. `CreateNumberFormat` still models the null branch.
- Thread safety of the `ConcurrentHashMap`: the cache is single-threaded here. The benign get-then-put race is not modelled.
- `Dispatch` and `GetVType` do not propagate failures from inside the payload decoders. `decodeNumber`, `decodeEnum`, the `decode*Array` decoders and `ImageDecoder.decode` are constructors that cannot fail. `decodeDouble` is modelled on its own (`Decoders.DecodeDouble`) and can fail on bad metadata, but the scalar branch of `Dispatch` does not call it. So an untagged record with a double `value` and an out-of-range alarm code is an `Ok` scalar here, while the source throws.
- The `probe` is a parameter, so the model does not decide which patterns `String.format` accepts with a double argument. This includes the hexadecimal pattern "0x%X" of form index 4, which the JDK rejects for a double, so that index would get the plain fallback formatter.
- `PVA_PV.java` (connect and subscribe callbacks, writes) and the benchmark harnesses under `compare/`: these are transport and demo code and are not part of the decoder.
