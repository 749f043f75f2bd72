# Data export utilities: error translation and CSV text normalisation

A Dafny model of `src/sentry/data_export/utils.py`, the two helpers the data
export feature uses around its query-engine (Snuba) calls:

- **`handle_snuba_errors(logger)`**: a decorator whose `wrapped` function runs
  the export operation. A failure caught by one of four `except` clauses is
  reported and replaced by an `ExportError` with one of six fixed messages.
  The clauses are `InvalidSearchQuery`, `QueryOutsideRetentionError`,
  `QueryIllegalTypeOfArgument` and `SnubaError`, tried in that order. The
  report is a `dataexport.error` metric tagged with the failure's text at
  sample rate 1.0, then a warning log, then `capture_exception`. Any other
  failure propagates untouched. Module `SnubaErrors`.
- **`ensure_unicode_for_csv(input)`**: under Python 2 it replaces every text
  scalar reachable through dicts and lists with its UTF-8 bytes. Under
  Python 3 it hands the input back. Module `CsvText`, which uses the
  RFC 3629 encoder of module `Utf8`.

Layout:

- `wrappers.dfy`: `Option`.
- `snuba_errors.dfy`: failures, outcomes, the effect trace, `Wrapped`. Also the
  ordered six-row classification table (`Table`, `FirstMatch`, `Classify`)
  as an independent reference, and the lemma that the `except` chain follows it.
- `utf8.dfy`: the section 3 encoder of RFC 3629. Its partner is a decoder
  built on the octet syntax of section 4. Round-trip and injectivity are proved.
- `csv_text.dfy`: the nested value, the normaliser, and a declarative
  description of its result (`EncodedForm`). Also: no text remains,
  idempotence, and worked examples.

Modelling choices:

- A failure is a record of membership flags, one per exception class the
  source names, plus its text form. No subclass relationship is assumed.
  `InvalidSearchQuery` and `QueryOutsideRetentionError` are caught by their
  own `except` clauses whether or not they are `SnubaError`s; each clause
  tests its own flag.
- The text form is `None` when `six.text_type(error)` raises. Under Python 2
  this happens for a failure whose message is a non-ASCII byte string. Each
  clause evaluates the text before its first call, so that error escapes the
  clause before anything is emitted, and no `ExportError` is raised. The
  caller then observes `TextError(failure)`.
- The wrapped call is given as its already-computed `Outcome`: `Ok(value)` or
  `Raised(failure)`.
- The caller observes `Returned(value)`, `Export(message, trace)`,
  `Propagated(failure)` or `TextError(failure)`.
- `metrics.incr`, `logger.warn` and `capture_exception` become `Metric`, `Warn`
  and `Capture` events of the returned trace. `Warn` carries the logger
  passed to `handle_snuba_errors` and the rendered `"dataexport.error: %s"`.
- `six.PY2` is the parameter `py2`.
- Text scalars are sequences of Unicode scalar values. Byte strings are
  sequences of octets.
- A dict is its sequence of (key, value) pairs.

## Model

| member | source | states |
|---|---|---|
| SnubaErrors.Wrapped | src/sentry/data_export/utils.py:17-66 | Success returns the wrapped value unchanged and emits nothing. A failure caught by none of the four clauses propagates unchanged and emits nothing. A caught failure whose text renders emits exactly metric, warning, capture (in that order, tagged with its text, rate 1.0), then raises an ExportError whose message is one of the six. A caught failure whose text cannot be rendered emits nothing and ends in the rendering error, not an ExportError. First match wins: an InvalidSearchQuery always gets the invalid-query message; a QueryOutsideRetentionError or QueryIllegalTypeOfArgument beats the SnubaError clause; a failure still reaching the SnubaError clause gets that clause's sub-classification. A Propagated result is never a caught class |
| SnubaErrors.SnubaMessage | src/sentry/data_export/utils.py:47-65 | Inside the SnubaError clause the message is one of the timeout, query-failed and generic messages. It is the timeout message exactly when the failure is a rate-limit, memory-limit or too-many-simultaneous failure. It is the query-failed message exactly when the failure is in none of those but is an unqualified-query, execution or schema-validation failure. Any other SnubaError gets the generic message. So the timeout group wins over the unqualified/execution/schema group |
| SnubaErrors.FirstMatch | src/sentry/data_export/utils.py:20-66 | First-match lookup in an ordered table: None exactly when no row matches; otherwise the row returned matches and no earlier row does |
| SnubaErrors.WrappedFollowsTable | src/sentry/data_export/utils.py:20-66 | The except chain agrees with the ordered six-row table. A failure the table classifies raises that row's message after the three-event report, or ends in the rendering error with nothing emitted when its text cannot be rendered. An unclassified one propagates |
| Utf8.EncodeScalar | src/sentry/data_export/utils.py:95 | One scalar value becomes a single well-formed UTF8-char of the section 4 syntax of RFC 3629 (1 to 4 octets) whose x bits spell the value. The char's lead octet announces its length, and it is one identical octet exactly for ASCII |
| Utf8.Encode | src/sentry/data_export/utils.py:95 | A text of n scalar values encodes to between n and 4n octets. ASCII text encodes octet for octet |
| Utf8.DecodeChar | src/sentry/data_export/utils.py:95 | Accepts exactly the section 4 UTF8-chars, and each accepted char is the encoding of the value returned |
| Utf8.Decode | src/sentry/data_export/utils.py:95 | Whatever octet string the decoder accepts is the UTF-8 encoding of the text it returns |
| Utf8.DecodeEncode | src/sentry/data_export/utils.py:95 | Decoding the encoding of any text gives the text back |
| Utf8.EncodeInjective | src/sentry/data_export/utils.py:95 | Distinct texts have distinct encodings |
| Utf8.EncodeCharValue | src/sentry/data_export/utils.py:95 | Every well-formed UTF8-char carries a scalar value whose encoding is that char |
| CsvText.Encode | src/sentry/data_export/utils.py:87-97 | The Python 2 walk leaves no text reachable through dicts and lists. A dict stays a dict and a list stays a list, with the same number of entries. A text scalar becomes octets that decode to that text. Anything else (int, bytes, tuple, other) comes back unchanged |
| CsvText.EnsureUnicodeForCsv | src/sentry/data_export/utils.py:83-97 | Outside Python 2 the input is returned unchanged. Under Python 2 the result has no reachable text and is the encoded form of the input |
| CsvText.EncodedFormIsEncode | src/sentry/data_export/utils.py:87-97 | The walk's result is exactly the declarative encoded form (both directions). Dict keys and values and list elements are each normalised in place, in order, and text leaves become their UTF-8 octets |
| CsvText.EncodeTextFree | src/sentry/data_export/utils.py:87-97 | The walk leaves a value with no reachable text unchanged |
| CsvText.EnsureUnicodeForCsvIdempotent | src/sentry/data_export/utils.py:83-97 | Normalising twice equals normalising once, under both Python 2 and Python 3 |
| CsvText.ListExample | src/sentry/data_export/utils.py:92-97 | `["x", 1, "y"]` becomes `[b"x", 1, b"y"]`; `42` stays `42` |
| CsvText.CafeExample | src/sentry/data_export/utils.py:94-95 | "café" becomes the octets 63 61 66 C3 A9 |
| CsvText.NestedExample | src/sentry/data_export/utils.py:87-95 | In `{"a": ["b", {"c": "d"}]}` every text at every depth becomes bytes, dict keys included |
| CsvText.TupleExample | src/sentry/data_export/utils.py:96-97 | A tuple is not descended into: text inside a tuple stays text |

## Left out

- Observability collaborators: the real `metrics`, `logger` and `capture_exception` are I/O. They appear only as trace events. A failure raised by one of them is not modelled.
- Decorator mechanics: `functools.wraps` and the `*args, **kwargs` forwarding are not modelled. The wrapped call is represented by its already-computed outcome.
- Exception classes: the class hierarchy of the query engine and `ExportError` itself (in `.base`) are not part of this model. Membership is free flags, and any combination is allowed.
- Python 2 detection: `six.PY2` runtime detection is replaced by a parameter.
- Object identity: under Python 3 the source returns the very same object. The model states equality of values only.
- Dict key merging: two distinct keys that normalise to the same bytes would merge in a Python dict. The model keeps a dict as its sequence of pairs and claims no merging. Python 2's dict iteration order is taken as the pair order.
- Subclasses: dict, list and unicode subclasses (which `isinstance` also accepts) are not distinguished from the plain types. A dict subclass comes back as a plain dict in the source too.
- CsvText.Value: text scalars hold Unicode scalar values only. Python 2's UTF-8 codec also accepts lone surrogate code points, and narrow builds store text as UTF-16 code units. RFC 3629 excludes surrogates, and neither behaviour is modelled. So inputs holding surrogate code units cannot be represented in `Value`. Python 2 encodes each such unit to three octets (U+D800 becomes ED A0 80).
- CsvText.Value: values are finite and acyclic. Python's recursion limit (a RuntimeError on very deep nesting) is not modelled. Neither is the endless recursion on a list or dict that contains itself.
