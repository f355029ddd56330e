# helm-to-goose, modelled in Dafny

helm-to-goose is a one-shot converter. It reads a Helm value file whose `db` section
holds `host`, `name`, `password` and `user`. It derives an environment label from the
value file's name, and writes a YAML document for the goose migration tool of the form

    <label>:
      driver: postgres
      open: host=<host> user=<user> password=<password> dbname=<name> sslmode=<require|disable>

This project models the program's whole logic after flag parsing:

- `readYAML`, with its handling of read and decode failures;
- the label `TrimSuffix(filepath.Base(p), filepath.Ext(p))`, with Go's Unix semantics
  of `Base` and `Ext` written out;
- the SSL mode and the `Sprintf` that builds the connection string;
- the two-level output map;
- `SaveYAML`'s error paths;
- `main`'s panics.

Reading and writing files and YAML encoding and decoding are library calls. They enter
as function-valued parameters, so every property holds for every behaviour of those
calls that the parameter types can express. One behaviour of the decoder they cannot
express is named under "## Left out".

Modules:

- `Wrappers`: `Option` and `Result`.
- `GoStrings`: `strings.TrimSuffix`, plus `Split` and `Join` on one separator
  character, used to read the connection string back.
- `GoFilepath`: `filepath.Base` and `filepath.Ext` on Unix, where `/` is the only
  separator.
- `GoFmt`: `fmt.Sprintf` restricted to literal text and `%v` applied to strings.
- `Values`: the input records, decoding into the zero value, `readYAML` as written,
  and `readYAML` corrected.
- `Output`: the SSL mode, the connection string, the output document, and `SaveYAML`.
- `Main`: the environment label, the run from reading to writing, and the exit status.

`readYAML` does not report a decode failure. When the read succeeds, `err` is nil, and
main.go:41 returns that same `err` next to a nil record, so `readYAML` hands back neither
a value nor an error. `main` then calls `SaveYAML` with the nil record, and the
dereference at main.go:57 panics. The process ends non-zero with no output file, but
through a nil-pointer panic instead of the decode error. `Main.Run` models that path
and `Main.RunFixed` the intended one, apart from a top-level `null` document (see
"## Left out"); "## Findings" records the discrepancy.

## Model

| member | source | states |
|---|---|---|
| Values.DecodeInto | main.go:38-40 | every `db` field present in the document takes its text; every absent field keeps Go's zero value, the empty string; a document naming none of the four keys decodes to the zero record |
| Values.ReadYaml | main.go:30-45 | a read failure returns no value and the read error; a decode failure returns no value and no error; otherwise it returns the decoded record and no error |
| Values.ReadYamlErrorIffReadFails | main.go:32-36 | the caller gets an error exactly when the file could not be read |
| Values.ReadYamlNilNilIffDecodeFails | main.go:40-41 | the caller gets neither a value nor an error exactly when the file was read but not decoded |
| Values.ReadYamlFixed | main.go:30-45 | corrected reader: a value comes back exactly when no error does; a read failure gives the read error; a decode failure gives the decode error; a successful read and decode give the decoded record and no error, as the reader as written does |
| GoStrings.TrimSuffix | main.go:89 | the result is a prefix of the input; with the suffix present, appending the suffix gives the input back; otherwise the input is unchanged |
| GoFilepath.Base | main.go:89 | the empty path gives "."; a path of separators only gives "/"; otherwise the result is non-empty, has no separator, ends where the trailing separators begin, and starts the path or follows a separator |
| GoFilepath.Ext | main.go:89 | the result is empty exactly when the text after the last separator has no '.'; otherwise it is a tail of the path that starts with its only '.' and has no separator; it is always a suffix of that last element |
| GoFilepath.BaseOfJoin | main.go:89 | a directory part, one separator-free element and any trailing separators have that element as base name |
| GoFilepath.ExtOfAppend | main.go:89 | appending "." followed by text with no '.' or separator gives exactly that text as the extension |
| Main.EnvLabel | main.go:89 | the label is a prefix of the base name, and is the whole base name when there is no extension; the full characterisation is in `Main.LabelPlusExtIsBase`, `Main.LabelIsBaseIff` and `Main.LabelShape` |
| Main.LabelPlusExtIsBase | main.go:89 | for a path not ending in a separator, the label followed by the extension is the base name, so only the one final extension is removed |
| Main.LabelIsBaseIff | main.go:89 | the label is the whole base name exactly when the path is empty, ends with a separator, or its base name has no '.' |
| Main.LabelShape | main.go:89 | the label is a prefix of the base name and contains no separator, except for a path of separators only, where both are "/" |
| Main.LabelOfFileName | main.go:89 | the label of `dir/stem.ext` is `stem` for any directory part and a single extension |
| Main.LabelOfPlainFileName | main.go:89 | a file name without '.' is its own label |
| Main.LabelOfStaging | main.go:89 | `staging.yaml` has label `staging` |
| Main.LabelOfNestedFile | main.go:89 | `helm/production.yaml` has label `production` |
| Main.LabelOfDoubleExtension | main.go:89 | `a.tar.gz` has label `a.tar`: only the last extension goes |
| Main.LabelOfTrailingSeparator | main.go:89 | `values/staging.yaml/` has label `staging.yaml`, because `Ext` looks at the whole path and finds no extension after the trailing separator |
| Output.SslMode | main.go:50-54 | the mode is "disable" exactly when the flag is set and "require" exactly when it is not |
| GoFmt.Sprintf | main.go:57 | for a format whose verbs match the arguments, the output is as long as the literal text plus the arguments; its contents are stated by `GoFmt.SprintfPairs` |
| GoFmt.SprintfPairs | main.go:57 | a format of texts each followed by `%v` prints each text followed by its argument, in order |
| Output.ConnectionString | main.go:57 | the `Sprintf` result is the five keys interleaved with host, user, password, name and the SSL mode, in that order; `Output.ConnectionStringSpelledOut` writes the string out and `Output.ConnectionStringTokens` reads it back |
| Output.ConnectionStringSpelledOut | main.go:57 | the connection string is `host=`, `user=`, `password=`, `dbname=`, `sslmode=`, each followed by its value and separated by single spaces, the values inserted verbatim |
| Output.ConnectionStringIsJoin | main.go:57 | the connection string is its five key=value tokens joined with single spaces |
| Output.ConnectionStringTokens | main.go:57 | when no field holds a space, splitting the connection string at spaces gives back exactly the five tokens in order |
| Output.ConnectionStringFiveTokensIffSpaceFree | main.go:57 | the string always splits into at least five tokens, and into exactly five if and only if no field holds a space |
| Output.NewDocument | main.go:48-56 | the filled map has the single key `env`, whose inner map has exactly the keys `driver` and `open`, holding the driver name and the given connection string |
| Output.NewDocumentDisplay | main.go:48-57 | the filled map equals the two-level map display `{env: {driver: postgres, open: ...}}` |
| Output.BuildOutput | main.go:48-57 | the marshalled document has exactly one outer key, the label; its inner keys are exactly `driver` and `open`; `driver` is "postgres" and `open` is the connection string of the record |
| Output.SaveYaml | main.go:47-70 | a nil record crashes with nothing written; a marshal failure returns that error with nothing written; otherwise the marshalled bytes are written to the output path once; the result is success exactly when marshal and write both succeed, and a write failure returns the write error |
| Main.AfterRead | main.go:85-93 | after `readYAML`: an error panics with it before anything is written; a nil record crashes before anything is written; otherwise the document for the label and record is marshalled and written, and the run completes exactly when marshal and write succeed |
| Main.Run | main.go:83-93 | a read failure panics with the read error and writes nothing; a decode failure crashes on the nil record and writes nothing; a decoded file continues with the decoded record |
| Main.RunWritesOnlyDocument | main.go:83-93 | the only write a run makes is the marshalled document for the decoded record, to the output path |
| Main.RunCompletesIff | main.go:83-93 | a run completes exactly when the file is read and decoded and the document is marshalled and written |
| Main.RunFixed | main.go:83-93 | with the corrected reader no run reaches the nil dereference, apart from a top-level `null` document (see "## Left out"); a decode failure panics with the decode error and writes nothing; in every other case the run is the same as the run as written |
| Main.ExitCode | main.go:85-93 | the process exits 0 exactly when the run completes, and 2 when it panics |
| Main.OutputForFileName | main.go:89-91 | a run on `dir/stem.ext` writes the document `{stem: {driver: postgres, open: <connection string>}}` |
| Main.MissingPasswordIsEmpty | main.go:38-57 | a value file without `password` gives an empty password, and for every record the connection string has ` dbname=` directly after `password=` |
| Main.MissingPasswordToken | main.go:38-57 | when no other field holds a space, a value file without `password` makes the third space-separated token exactly `password=`; fields with spaces are covered by `Main.MissingPasswordIsEmpty` |

## Left out

- Flag parsing (main.go:73-81), exits 0 on a help request and 1 on any other flag error.
  The go-flags library decides both, so the model starts from parsed `Options`.
- `yaml.Unmarshal` and `yaml.Marshal` are parameters. The YAML text layout of the
  output is not modelled, nor which inputs fail to decode.
- The unmarshal parameter yields the string fields under `db`, or a failure. A document
  whose top level is YAML `null` can set the `*Values` to nil through `&m`. The model
  leaves that case out and treats every successful decode as giving a record.
- Main.RunFixed: its promise that no run reaches the nil dereference holds only for the
  decode parameter's type. A value file whose top level is `~` or `null` decodes without
  error yet leaves the record nil, so the corrected reader still returns `nil, nil` and
  main.go:57 still dereferences nil. The model cannot express that decode result.
- `ioutil.ReadFile` and `ioutil.WriteFile` are parameters. The file permission
  `os.ModePerm` is not modelled, nor is a partial write.
- Go strings are byte sequences; the model uses `seq<char>`. Base and Ext only compare
  against the ASCII characters '/' and '.', and no UTF-8 multi-byte sequence contains
  those bytes, so the results agree.
- Windows path separators and volume names are left out. The model follows Go's
  filepath on Unix.
- `fmt.Sprintf` is modelled only for a format whose number of `%v` verbs matches the
  number of arguments, the only case the program uses. The `%!v(MISSING)` and
  `%!(EXTRA ...)` outputs are not modelled.
- The panic message and stack trace on standard error are left out. Only the fact of
  the panic and its exit status 2 are modelled.

## Findings

| source | as written | input that shows it | evidently intended | confidence | as-written member | corrected member |
|---|---|---|---|---|---|---|
| main.go:40-41 | on a decode failure `readYAML` returns `nil, err`, where `err` is the read error, which is nil there; `main` passes the nil record to `SaveYAML`, which dereferences it | a readable value file whose contents fail to decode, such as the text `db: [` | return the decode error, so that `main` panics with it; a top-level `null` document still yields a nil record with no error (see "## Left out") | not executed | Values.ReadYamlNilNilIffDecodeFails | Values.ReadYamlFixed |
