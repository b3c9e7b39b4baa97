# kubectl-lsd: the decode-and-reshape transform

kubectl-lsd reads a Kubernetes Secret or SecretList, as JSON or YAML, and
prints it back in the same format with every base64 `data` mapping replaced
by a `stringData` mapping of decoded text. This project models the transform
at the centre of that program (`internal/lsd.go`) on an already parsed
document, and proves what it does to the document.

The model has four modules:

- `Wrappers` holds the `Option` and `Result` types.
- `Document` holds the schema-free document. A `Value` is nil, a bool, a
  number, a string, a sequence or a mapping. `Get` reads a missing key as
  nil, as a Go map index does. `Error` names the three ways the transform can
  fail.
- `Base64` holds the decoder that `decodeSecret` calls
  (`base64.StdEncoding.DecodeString`, the padded standard alphabet of section
  4 of RFC 4648). It also holds an encoder that serves as the decoder's
  reference. Decoding the encoding of any byte string gives it back. In the
  other direction, a string the decoder accepts is the encoding of what it
  decodes to only when its padding leaves the unused bits zero: `QR==`
  decodes to the same byte as `QQ==`, and only `QQ==` is an encoding. A
  predicate `WellFormed` states, without using the decoder, which strings it
  accepts.
- `Lsd` holds the transform: `Cast`, `DecodeSecret`, the two halves of
  `decode` (`StartTasks`, which starts one task per entry, and `ReceiveAll`,
  which collects the results), `Decode`, `StringData`, `ListSecrets` and the
  shape dispatch of `Run`. The state-changing steps are methods that follow
  the source loop by loop. Each is proved to produce exactly what a
  specification function gives (`Reshaped`, `ReshapedList`, `Transformed`),
  or to fail with an error the source could have reported. The lemmas about
  those functions state the properties of the transform. Examples are that
  the transform is idempotent, and that a `data` value encoded with base64
  decodes back to its text.
- `LsdExamples` takes the documents of the repository's own tests through the
  transform: the single Secret and the two-item SecretList. It proves that
  `c2VjcmV0` becomes `secret` and that `bGlzdCBzZWNyZXQgZGVjb2Rl` becomes
  `list secret decode`.

Go's map iteration order and the order in which the decoding goroutines
finish are not fixed. `StartTasks` visits the entries in an arbitrary order
(`:|` choice). `ReceiveAll` takes the pending results in an arbitrary order.
The proofs hold for every such order. The success result does not depend on
the order. The error names some non-string entry, and which one depends on
the order.

## Model

| member | source | states |
|---|---|---|
| Lsd.Run | internal/lsd.go:35-44 | Succeeds exactly when the document is `Transformable`. The list path is taken exactly when `items` is not nil, and the single-object path otherwise. On success the output is `Transformed(doc)` in the format the input was read in. On failure nothing is written, and the error is a `listSecrets` error (list path) or names a non-string `data` entry (single path). |
| Lsd.ListSecrets | internal/lsd.go:60-78 | Succeeds exactly when `items` is a sequence of mappings each accepted by `stringData`, and then returns `ReshapedList(doc)`. Otherwise it fails with `ItemsNotList` when `items` is not a sequence, or with the reason the first refused element is refused (`ItemNotMap`, or a non-string `data` entry of that element), every earlier element having been accepted. |
| Lsd.ReshapedList | internal/lsd.go:65-77 | The document keeps its key set and every top-level entry other than `items`, so a top-level `data` beside `items` is not decoded. `items` keeps its length and order, and element k becomes the `stringData` result of element k. |
| Lsd.ListFailsExcludesSuccess | internal/lsd.go:61-73 | A document for which `listSecrets` has an error is not one it succeeds on, so the failure and success cases of `ListSecrets` and `Run` do not overlap. |
| Lsd.Cast | internal/lsd.go:84-87 | The cast succeeds exactly on mappings, and then yields that mapping. |
| Lsd.StringData | internal/lsd.go:89-101 | Succeeds exactly when there is nothing to decode (`data` absent, not a mapping, or empty) or every `data` entry is a string, and then returns `Reshaped(s)`. Otherwise the error names a `data` entry that is not a string. |
| Lsd.Reshaped | internal/lsd.go:89-101 | With nothing to decode, the object is returned unchanged. Otherwise the key set loses `data` and gains `stringData`, `stringData` has the keys of `data`, and each of its values is `DecodeSecret` of that entry. Every other key keeps its value. |
| Lsd.ReshapedIdempotent | internal/lsd.go:89-101 | A reshaped object has nothing left to decode, so `stringData` accepts it and returns it unchanged. |
| Lsd.ReshapedListIdempotent | internal/lsd.go:60-78 | `listSecrets` accepts its own output and returns it unchanged. |
| Lsd.TransformIdempotent | internal/lsd.go:35-44 | The transform accepts its own output and returns it unchanged. The output is a list exactly when the input is, so the dispatch takes the same path the second time. |
| Lsd.DecodeSecret | internal/lsd.go:118-127 | A value that is not well-formed base64 is kept unchanged, and this step never fails. A well-formed value is one the decoder accepts, and the result is the text of the decoded bytes. |
| Lsd.BytesToString | internal/lsd.go:122 | The text has one character per decoded byte, in order, each with that byte's code (see the line on `Lsd.DecodeSecret` under "Left out" for text beyond ASCII). |
| Lsd.DecodeSecretLength | internal/lsd.go:121-122 | A decoded well-formed value has three characters for every four of its base64 text, padding included. |
| Lsd.DecodeSecretOfEncoding | internal/lsd.go:121-122 | For any byte string, `decodeSecret` of its padded standard encoding is that byte string as text. |
| Lsd.Decode | internal/lsd.go:129-145 | Succeeds exactly when every entry is a string. The result then has exactly the keys of the input, and the value for key k is `DecodeSecret(data[k])`, whatever the order of iteration and of the tasks' completion. Otherwise the error names an entry that is not a string. |
| Lsd.StartTasks | internal/lsd.go:133-139 | Starts one task per entry, as many tasks as entries, covering every key, each task carrying `DecodeSecret` of its entry. It stops with an error naming a non-string entry exactly when there is one. |
| Lsd.ReceiveAll | internal/lsd.go:140-144 | Receiving `len(data)` results in any order gives a map whose keys are exactly the tasks' keys, each mapped to `DecodeSecret` of its entry. |
| Base64.Decode | internal/lsd.go:121 | The decoder accepts a string exactly when it is `WellFormed`: whole quanta of alphabet characters, with `=` allowed only as the last character or the last two. |
| Base64.DecodeEncode | internal/lsd.go:121 | Decoding the padded encoding of any byte string gives that byte string back. |
| Base64.EncodeDecode | internal/lsd.go:121 | A string the decoder accepts, and whose padding leaves the unused bits zero, is the encoding of what it decodes to. |
| Base64.DecodeLength | internal/lsd.go:121 | What the decoder accepts has four characters for every three decoded bytes, the last quantum padded. |
| Base64.DecodeQuantumShape | internal/lsd.go:121 | A quantum of four characters decodes exactly when its first two are alphabet characters and it ends in two alphabet characters, or in an alphabet character and `=`, or in `==`. It gives three bytes exactly when it has no padding. |
| Base64.ValueOf | internal/lsd.go:121 | Every alphabet character stands for the 6-bit value that the alphabet table maps back to that character. |
| Base64.JoinSplit | internal/lsd.go:121 | Cutting three bytes into four 6-bit values and joining them again gives the same three bytes. |
| LsdExamples.DecodeSecretPassword | internal/lsd_test.go:33-49 | `c2VjcmV0` decodes to `secret`. |
| LsdExamples.DecodeSecretApp | internal/lsd_test.go:33-48 | `bGlzdCBzZWNyZXQgZGVjb2Rl` decodes to `list secret decode`. |
| LsdExamples.TestSecretTransformed | internal/lsd_test.go:52-77 | The test Secret goes down the single-object path. The output has `data` replaced by `stringData` with both entries decoded, and `apiVersion`, `kind`, `metadata` and `type` unchanged. |
| LsdExamples.TestListTransformed | internal/lsd_test.go:96-129 | The test SecretList goes down the list path. Each of its two items comes to hold only the decoded `stringData`, and `apiVersion` is unchanged. |
| LsdExamples.RunTestSecret | internal/lsd_test.go:16-17 | `Run` on the test Secret, read as YAML or as JSON, succeeds with the expected Secret in the same format. |
| LsdExamples.RunTestList | internal/lsd_test.go:18-19 | `Run` on the test SecretList, read as YAML or as JSON, succeeds with the expected SecretList in the same format. |

## Left out

- Parsing and printing are not modelled. This covers the `isJSON` probe, `yaml.YAMLToJSON`, `unmarshal`, `marshal` and `marshalYAML` (internal/lsd.go:20-32, 46-57, 80-82, 103-116). They are thin wrappers over `encoding/json` and `github.com/ghodss/yaml`, which are not part of this model. The model starts from the parsed document, and the detected format is an input that the output carries back.
- Output formatting (sorted keys, four-space JSON indentation) belongs to those libraries. `RunTestSecret` and `RunTestList` compare documents, not the printed text the tests compare.
- The top-level document is always a mapping here. Input that parses to JSON `null` (a nil map in Go) or to a non-mapping (an unmarshal error in Go) is not modelled.
- The goroutines and the buffered channel of `decode` become two sequential loops that pick the next entry and the next result arbitrarily. Nothing about scheduling beyond that order is modelled.
- Error messages and their `%w` wrapping are not modelled. An error is one of `ItemsNotList`, `ItemNotMap` or `NotAString(key)`, and `Run` passes it through unchanged.
- `StringData` and `ListSecrets` return new values instead of updating the Go map and slice in place. On the error path, Go has already set `stringData` to nil or replaced earlier items before it returns. `Run` then discards the document, so the difference cannot be observed.
- Base64.Decode does not skip `\r` and `\n` as Go's decoder does. A value containing line breaks is therefore treated as ill-formed and kept unchanged, where Go would decode it.
- Lsd.DecodeSecret turns each decoded byte into the character with that code. A Go string holds the raw bytes, and the JSON and YAML writers then print them as UTF-8, replacing invalid sequences. Text beyond ASCII is therefore not represented byte for byte.
- Numbers are unbounded reals. The transform never looks at them, and float64 precision is not modelled.
- `cmd/cmd.go` (flags, reading a file or stdin, running `kubectl`) and `main.go` (exit code, printing to stderr) are I/O plumbing and are not part of this model.
