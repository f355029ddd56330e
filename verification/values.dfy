/** The input records and `readYAML`. Reading the file and decoding YAML are
    library calls, so they enter as oracles: `readFile` gives the file's bytes or an
    error, `unmarshal` gives the text fields present under the document's `db` key or
    an error. */
module Values {
  import opened Wrappers

  type Bytes = seq<bv8>

  /** An error value returned by a library call; only its identity matters here. */
  datatype Error = Error(message: string)

  /** The `db` section of the value file. */
  datatype DB = DB(host: string, name: string, password: string, user: string)

  /** The whole value file: just the `db` section. */
  datatype Values = Values(db: DB)

  /** Go's `(*Values, error)` pair: either part may be nil. */
  datatype ReadReturn = ReadReturn(values: Option<Values>, err: Option<Error>)

  /** The zero value of `Values`, as `new(Values)` creates it. */
  const ZeroValues: Values := Values(DB("", "", "", ""))

  /** The value of one YAML key under `db`, or Go's zero string when the key is absent. */
  function FieldOrEmpty(fields: map<string, string>, key: string): (v: string)
    ensures key in fields ==> v == fields[key]
    ensures key !in fields ==> v == ""
  {
    if key in fields then fields[key] else ""
  }

  /** Decoding into the zero value: every field named in the document takes its text,
      every other field keeps the empty string. A document without `db` gives `ZeroValues`. */
  function DecodeInto(fields: map<string, string>): (v: Values)
    ensures v.db.host == FieldOrEmpty(fields, "host")
    ensures v.db.name == FieldOrEmpty(fields, "name")
    ensures v.db.password == FieldOrEmpty(fields, "password")
    ensures v.db.user == FieldOrEmpty(fields, "user")
    ensures fields.Keys !! {"host", "name", "password", "user"} ==> v == ZeroValues
  {
    var db := ZeroValues.db;
    var db := if "host" in fields then db.(host := fields["host"]) else db;
    var db := if "name" in fields then db.(name := fields["name"]) else db;
    var db := if "password" in fields then db.(password := fields["password"]) else db;
    var db := if "user" in fields then db.(user := fields["user"]) else db;
    Values(db)
  }

  /** readYAML as written: a read error is returned as is; on an unmarshal error the
      function returns the read error variable, which is nil at that point, so neither a
      value nor an error comes back. */
  function ReadYaml(filename: string,
                    readFile: string -> Result<Bytes, Error>,
                    unmarshal: Bytes -> Result<map<string, string>, Error>): (r: ReadReturn)
    ensures readFile(filename).Failure? ==> r == ReadReturn(None, Some(readFile(filename).error))
    ensures readFile(filename).Success? && unmarshal(readFile(filename).value).Failure? ==>
              r == ReadReturn(None, None)
    ensures readFile(filename).Success? && unmarshal(readFile(filename).value).Success? ==>
              r == ReadReturn(Some(DecodeInto(unmarshal(readFile(filename).value).value)), None)
  {
    var f := readFile(filename);
    var err := if f.Failure? then Some(f.error) else None;
    if err.Some? then ReadReturn(None, err)
    else
      var m := unmarshal(f.value);
      if m.Failure? then ReadReturn(None, err)
      else ReadReturn(Some(DecodeInto(m.value)), None)
  }

  /** The caller gets an error exactly when the file could not be read. */
  lemma ReadYamlErrorIffReadFails(filename: string,
                                  readFile: string -> Result<Bytes, Error>,
                                  unmarshal: Bytes -> Result<map<string, string>, Error>)
    ensures ReadYaml(filename, readFile, unmarshal).err.Some? <==> readFile(filename).Failure?
  {
  }

  /** The caller gets neither a value nor an error exactly when the file was read but
      could not be decoded. */
  lemma ReadYamlNilNilIffDecodeFails(filename: string,
                                     readFile: string -> Result<Bytes, Error>,
                                     unmarshal: Bytes -> Result<map<string, string>, Error>)
    ensures var r := ReadYaml(filename, readFile, unmarshal);
            r.values.None? && r.err.None? <==>
              readFile(filename).Success? && unmarshal(readFile(filename).value).Failure?
  {
  }

  /** readYAML as evidently intended: an unmarshal failure returns the unmarshal error. */
  function ReadYamlFixed(filename: string,
                         readFile: string -> Result<Bytes, Error>,
                         unmarshal: Bytes -> Result<map<string, string>, Error>): (r: ReadReturn)
    ensures r.values.Some? <==> r.err.None?
    ensures readFile(filename).Failure? ==> r.err == Some(readFile(filename).error)
    ensures readFile(filename).Success? && unmarshal(readFile(filename).value).Failure? ==>
              r.err == Some(unmarshal(readFile(filename).value).error)
    ensures readFile(filename).Success? && unmarshal(readFile(filename).value).Success? ==>
              r == ReadReturn(Some(DecodeInto(unmarshal(readFile(filename).value).value)), None)
    ensures r.values.Some? ==> r == ReadYaml(filename, readFile, unmarshal)
  {
    var f := readFile(filename);
    if f.Failure? then ReadReturn(None, Some(f.error))
    else
      var m := unmarshal(f.value);
      if m.Failure? then ReadReturn(None, Some(m.error))
      else ReadReturn(Some(DecodeInto(m.value)), None)
  }
}
