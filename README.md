# CSV column projection and transformation, modelled in Dafny

This project models the core of a small CSV tool. A `CSVParser` is configured
with an ordered list of output columns and with one column transformer per
column name. Its `parse` reads a header and data rows and checks the
configuration against the header. It then writes one row per input row. Each
output row holds only the selected columns, and each value passes through the
column's transformer when the column has one.

The model has four modules:

- `Text` (text.dfy) holds the string operations the transformers are built on:
  - Python's `str.isspace` whitespace set;
  - ASCII case mapping;
  - `str.title` over ASCII letters;
  - `str.strip`, written as the two index scans CPython uses;
  - the digit filter.
- `Transformers` (transformers.dfy) holds one datatype `Transformer` that covers:
  - the base pass-through transformer;
  - the three built-in transformers (upper case, lower case, strip);
  - the example transformers: title case, prefix, phone number, truncation and default value.

  `Apply` is the transformers' `transform`.
- `CsvParsing` (csv_parser.dfy) covers the parse itself:
  - `Process` is the specification of a parse, as a function of the configuration, the header and the rows.
  - The class `CsvParser` has the two configuration fields. Its builder methods update those fields in place and return the parser itself.
  - `Parse` is the row loop with the column loop nested inside it. It is proved to compute exactly `Process`.
  - Lemmas cover column selection, validation and row contents.
- `ParserExamples` (parser_examples.dfy) holds the scenarios of the repository's unit tests, stated as lemmas over concrete inputs.

The input is taken as already tokenised: an optional header (`None` when the
input has no header row) and one dictionary per data row. The output is the
header written and the dictionaries handed to the CSV writer. The two error
cases are results of their own and carry no output. This matches the source,
which raises both errors before the output file is opened.

## Model

| member | source | states |
|---|---|---|
| Text.UpperChar | csv_parser.py:34 | a lower-case letter becomes the capital at the same place in the alphabet; every other character is kept; the result is never a lower-case letter |
| Text.LowerChar | csv_parser.py:41 | a capital becomes the lower-case letter at the same place in the alphabet; every other character is kept; the result is never a capital |
| Text.ToUpper | csv_parser.py:34 | no contract of its own; it upper-cases every character with `UpperChar`, and its promise is `Transformers.CaseMapping` |
| Text.ToLower | csv_parser.py:41 | no contract of its own; it lower-cases every character with `LowerChar`, and its promise is `Transformers.CaseMapping` |
| Text.CaseRoundTrip | csv_parser.py:34-41 | lower-casing undoes upper-casing on lower-case letters and the reverse on capitals; a character and its upper-cased form lower-case to the same character |
| Text.UpperIdempotent | csv_parser.py:34 | upper-casing twice is the same as once |
| Text.LowerIdempotent | csv_parser.py:41 | lower-casing twice is the same as once |
| Text.SkipSpace | csv_parser.py:48 | the front scan of `strip` stops at the first non-whitespace character at or after its start (or at the end), and everything it skipped is whitespace |
| Text.SkipSpaceBack | csv_parser.py:48 | the back scan of `strip` stops after the last non-whitespace character, never before its lower bound, and everything it skipped is whitespace |
| Text.Strip | csv_parser.py:48 | the stripped value is no longer than the value; the rest of its promise is `Text.StripSpec` and `Text.StripEmptyIff` |
| Text.StripSpec | csv_parser.py:48 | `strip` gives the slice of the value that starts after the leading whitespace, has only whitespace after it, and neither starts nor ends with whitespace |
| Text.StripEmptyIff | csv_parser.py:48 | `strip` gives the empty string exactly when the value is all whitespace |
| Text.StripPadded | csv_parser.py:48 | `strip` of text padded with whitespace on both sides gives back exactly that text, when it does not itself start or end with whitespace |
| Text.StripIdempotent | csv_parser.py:48 | stripping twice is the same as stripping once |
| Text.TitleFrom | examples_custom_transformers.py:41 | title casing keeps the length; a letter right after a letter becomes lower case, and any other character is upper-cased (only letters change) |
| Text.TitleCase | examples_custom_transformers.py:41 | no contract of its own; it is title casing started with no cased character before it, and its promise is `Text.TitleFrom` |
| Text.TitleIdempotent | examples_custom_transformers.py:41 | title casing twice is the same as once |
| Text.Digits | examples_custom_transformers.py:29 | the digit filter gives only digits, is no longer than its input, and is empty for a value with no digits |
| Text.DigitsAppend | examples_custom_transformers.py:29 | the digits of a concatenation are the digits of the first part followed by the digits of the second |
| Text.DigitsOfDigits | examples_custom_transformers.py:29 | a string of digits is its own digit filter |
| Transformers.SliceTo | examples_custom_transformers.py:55 | Python's `text[:k]` is the prefix of `text` of length `min(k, len(text))` for `k >= 0` and `max(0, len(text) + k)` for negative `k` |
| Transformers.DigitsOfPhoneLayout | examples_custom_transformers.py:32 | the digits of `(abc) def-ghij` are `abcdefghij` when the three parts are digit strings |
| Transformers.DigitsOfTenDigitLayout | examples_custom_transformers.py:31-32 | the digits of the layout built from ten digits are exactly those ten digits |
| Transformers.FormatPhone | examples_custom_transformers.py:27-33 | no contract of its own; its promise is `Transformers.PhoneFormatting` |
| Transformers.Truncated | examples_custom_transformers.py:52-56 | no contract of its own; its promise is `Transformers.TruncateFits` and `Transformers.TruncateOverlongSuffix` |
| Transformers.Apply | csv_parser.py:17-48 | no contract of its own; it dispatches to the base, built-in and example transformers (examples_custom_transformers.py:19-67), and its promises are the `Transformers` lemmas below |
| Transformers.OrDefault | examples_custom_transformers.py:67 | the default is chosen exactly when the value is empty or all whitespace, and the value is kept otherwise |
| Transformers.IdentityKeepsValue | csv_parser.py:17-27 | the base transformer returns its input unchanged |
| Transformers.EmptyShortCircuit | csv_parser.py:33-48 | upper, lower, strip and title case return an empty value as it is |
| Transformers.CaseMapping | csv_parser.py:33-41 | upper and lower case keep the length, leave no letter of the other case, keep every letter the same letter up to case, and change no character that is not a letter |
| Transformers.StripTrims | csv_parser.py:47-48 | the strip transformer returns the middle slice of the value with only whitespace around it; the result has no whitespace at either end and is empty exactly when the value is all whitespace |
| Transformers.ShortCircuitIdempotent | csv_parser.py:33-48 | applying upper, lower, strip or title case twice is the same as applying it once |
| Transformers.PrefixPrepends | examples_custom_transformers.py:16-20 | the prefix transformer returns the prefix followed by the value |
| Transformers.PhoneFormatting | examples_custom_transformers.py:27-33 | a value with exactly ten digits becomes the 14-character `(XXX) XXX-XXXX`, whose digits are the value's digits in order; any other value is returned as it is |
| Transformers.PhoneFormatIdempotent | examples_custom_transformers.py:27-33 | formatting an already formatted number changes nothing |
| Transformers.TruncateFits | examples_custom_transformers.py:52-56 | text no longer than the limit is kept; longer text ends with the suffix; when the suffix fits the limit, the result is exactly `max_length` long and is the text's first `max_length - len(suffix)` characters followed by the suffix |
| Transformers.TruncateOverlongSuffix | examples_custom_transformers.py:55 | with a suffix longer than the limit (a negative limit included), the negative slice bound makes the result longer than `max_length`; its exact length is stated, and the part before the suffix is a prefix of the text |
| Transformers.DefaultFillsBlank | examples_custom_transformers.py:63-67 | the default-value transformer returns the default for an empty or whitespace-only value and the value otherwise |
| CsvParsing.NoneMissingIff | csv_parser.py:108-109 | `set(columns) - set(fieldnames)` is empty exactly when every column is a field name |
| CsvParsing.EffectiveColumns | csv_parser.py:105 | no contract of its own; its promise is `CsvParsing.DefaultColumnsAreHeader` and `CsvParsing.ConfiguredColumnsInOrder` |
| CsvParsing.TransformValue | csv_parser.py:123-124 | no contract of its own; its promise is `CsvParsing.TransformIsolation` and `CsvParsing.OutputRows` |
| CsvParsing.ProjectRow | csv_parser.py:118-126 | no contract of its own; its promise is `CsvParsing.ProjectRowExtend` and `CsvParsing.OutputRows` |
| CsvParsing.ProjectRowExtend | csv_parser.py:118-126 | adding one more column to the output dictionary stores that column's transformed or raw value and keeps the rest |
| CsvParsing.Process | csv_parser.py:101-128 | no header gives the no-header error and nothing else does; the parse succeeds exactly when every effective column is in the header; the missing-column error carries exactly `set(columns) - set(header)`; on success the output header is the effective column list and there is one output row per input row |
| CsvParsing.CsvParser.constructor | csv_parser.py:56-59 | a new parser has no columns and no transformers |
| CsvParsing.CsvParser.SetColumns | csv_parser.py:61-72 | replaces the column list, leaves the transformers unchanged, and returns the parser itself |
| CsvParsing.CsvParser.AddTransformer | csv_parser.py:74-86 | sets the column's transformer, overwriting any earlier one; every other column's entry and the column list stay unchanged; it returns the parser itself |
| CsvParsing.CsvParser.Parse | csv_parser.py:88-128 | the result of the header check, the column validation and the nested row and column loops is exactly `Process` of the parser's configuration |
| CsvParsing.CreateParser | csv_parser.py:131-138 | returns a new parser with no columns and no transformers |
| CsvParsing.DefaultColumnsAreHeader | csv_parser.py:105 | with no columns configured, the parse succeeds and the output header is the input header in its order |
| CsvParsing.ConfiguredColumnsInOrder | csv_parser.py:105 | configured columns that are all in the header are output in the configured order |
| CsvParsing.MissingColumnsExact | csv_parser.py:108-110 | a requested column absent from the header makes the parse fail, and the error names exactly the requested columns absent from the header |
| CsvParsing.OutputRows | csv_parser.py:116-128 | every output row has exactly the output columns as keys, each holding the input value, transformed when the column has a transformer |
| CsvParsing.TransformIsolation | csv_parser.py:119-126 | a column's output values depend only on the transformer registered for that column; a column without one is copied unchanged |
| CsvParsing.IdentityPath | csv_parser.py:105-128 | with no columns configured and no transformers, the output header and rows equal the input |
| ParserExamples.CaseExamples | test_csv_parser.py:21-33 | `hello`/`World` upper-case to `HELLO`/`WORLD`, and `HELLO`/`World` lower-case to `hello`/`world` |
| ParserExamples.StripExamples | test_csv_parser.py:35-40 | `"  hello  "` and `"world\n"` strip to `hello` and `world`, and `"  "` strips to the empty string |
| ParserExamples.UppercaseNameExample | test_csv_parser.py:97-112 | selecting `name` and `email` and upper-casing `name` gives `JOHN DOE` and `JANE SMITH`, keeps the e-mail addresses, and drops `age` |
| ParserExamples.UnknownColumnExample | test_csv_parser.py:130-138 | requesting `nonexistent` fails with exactly that name missing |
| ParserExamples.EmptyInputExample | test_csv_parser.py:140-151 | an input without a header fails with the no-header error |
| ParserExamples.StripBothColumnsExample | test_csv_parser.py:190-205 | stripping `name` and `city` with no column list gives `John Doe`, `New York`, `Jane Smith` and `London` under the original header |
| ParserExamples.ChainedConfiguration | test_csv_parser.py:154-158 | `set_columns` chained into `add_transformer` returns the original parser, configured with the given column and transformer |

## Left out

- File opening, encodings, newline handling and the `with` blocks of `parse` are OS I/O. Input and output are sequences here.
- CSV tokenising and quoting by `csv.DictReader` and `csv.DictWriter` belong to Python's standard library. The model starts from the header and row dictionaries and ends with the dictionaries passed to `writerow`.
- Rows shorter than the header are left out: `DictReader` gives `None` for their missing fields. Every row is required to have a value under every header name, as `DictReader` guarantees for rows that are long enough. Values are always strings.
- Duplicate header names are left out. Which value `DictReader` keeps for a duplicate name is decided inside the tokeniser, before a row reaches the model.
- Configured column lists with repeated names are kept as given in the output header. The row dictionary has one entry per name, as in the source.
- Non-ASCII letters are left out: case mapping, `title` and `isdigit` act on ASCII letters and digits only. Whitespace is Python's full `str.isspace` set.
- The error message texts are left out. The two errors are distinct results, and the missing-column error carries its set of names.
- `set_columns` stores the caller's list object, so the source shares it with the caller. That aliasing is not modelled: the model stores a value.
- If the output fails partway through a parse, the source leaves earlier rows written. The model has no partial output.
- The command-line front end (main.py) and the `example_*` functions and `main` of examples_custom_transformers.py are argument parsing, file I/O and printing around the core.
- Transformers.TruncateOverlongSuffix: when `max_length` is smaller than the suffix length, the result is longer than `max_length`. This follows Python's negative slice bound as written, and it is stated as such rather than as a length bound.
