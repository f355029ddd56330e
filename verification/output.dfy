/** `SaveYAML`: the SSL mode, the connection string, the two-level output document,
    and how marshalling and writing the file can fail. `yaml.Marshal` and
    `ioutil.WriteFile` are library calls and enter as oracles. */
module Output {
  import opened Wrappers
  import opened Values
  import GoFmt
  import GoStrings

  /** The driver name every output document carries. */
  const Driver: string := "postgres"

  /** The output document: environment label -> {driver, open}. */
  type Document = map<string, map<string, string>>

  /** The `sslmode` value: "require" unless the disable flag is set. */
  function SslMode(disableSslMode: bool): (mode: string)
    ensures mode == "disable" <==> disableSslMode
    ensures mode == "require" <==> !disableSslMode
  {
    var mode := "require";
    if disableSslMode then "disable" else mode
  }

  /** The literal text of the format string passed to Sprintf, each followed by `%v`. */
  const ConnTexts: seq<string> := ["host=", " user=", " password=", " dbname=", " sslmode="]

  /** The `open` connection string: Sprintf over the format with the four fields and
      the SSL mode as arguments. */
  function ConnectionString(db: DB, disableSslMode: bool): (open: string)
    ensures open == GoFmt.Interleave(ConnTexts, [db.host, db.user, db.password, db.name, SslMode(disableSslMode)])
  {
    var args := [db.host, db.user, db.password, db.name, SslMode(disableSslMode)];
    GoFmt.SprintfPairs(ConnTexts, args);
    GoFmt.Sprintf(GoFmt.Pairs(ConnTexts), args)
  }

  /** The connection string holds the four fields and the SSL mode in a fixed order,
      each after its key and inserted verbatim. */
  lemma ConnectionStringSpelledOut(db: DB, disableSslMode: bool)
    ensures ConnectionString(db, disableSslMode)
            == "host=" + db.host + " user=" + db.user + " password=" + db.password
               + " dbname=" + db.name + " sslmode=" + SslMode(disableSslMode)
  {
    var args := [db.host, db.user, db.password, db.name, SslMode(disableSslMode)];
    GoFmt.SprintfPairs(ConnTexts, args);
    assert ConnectionString(db, disableSslMode) == GoFmt.Interleave(ConnTexts, args);
    GoFmt.InterleaveFive("host=", " user=", " password=", " dbname=", " sslmode=",
                         db.host, db.user, db.password, db.name, SslMode(disableSslMode));
  }

  /** The five key=value tokens of a connection string, in order. */
  function Tokens(db: DB, disableSslMode: bool): seq<string>
  {
    ["host=" + db.host, "user=" + db.user, "password=" + db.password,
     "dbname=" + db.name, "sslmode=" + SslMode(disableSslMode)]
  }

  /** No field of the record contains a space. */
  predicate SpaceFree(db: DB) {
    ' ' !in db.host && ' ' !in db.user && ' ' !in db.password && ' ' !in db.name
  }

  /** The keys after the first begin with the space that separates tokens. */
  lemma SpacedKeys()
    ensures " user=" == [' '] + "user="
    ensures " password=" == [' '] + "password="
    ensures " dbname=" == [' '] + "dbname="
    ensures " sslmode=" == [' '] + "sslmode="
  {
  }

  /** Key/value pairs, the later keys led by a separator, are the joined pairs. */
  lemma PairsJoined(k0: string, k1: string, k2: string, k3: string, k4: string,
                    a0: string, a1: string, a2: string, a3: string, a4: string, sep: char)
    ensures k0 + a0 + ([sep] + k1) + a1 + ([sep] + k2) + a2 + ([sep] + k3) + a3 + ([sep] + k4) + a4
            == GoStrings.Join([k0 + a0, k1 + a1, k2 + a2, k3 + a3, k4 + a4], sep)
  {
    GoStrings.JoinFive(k0 + a0, k1 + a1, k2 + a2, k3 + a3, k4 + a4, sep);
  }

  /** The connection string is its tokens joined by single spaces. */
  lemma ConnectionStringIsJoin(db: DB, disableSslMode: bool)
    ensures ConnectionString(db, disableSslMode) == GoStrings.Join(Tokens(db, disableSslMode), ' ')
  {
    ConnectionStringSpelledOut(db, disableSslMode);
    SpacedKeys();
    PairsJoined("host=", "user=", "password=", "dbname=", "sslmode=",
                db.host, db.user, db.password, db.name, SslMode(disableSslMode), ' ');
  }

  /** A key and a value, neither with a space, make a token without a space. */
  lemma NoSpaceAfterKey(key: string, value: string)
    requires ' ' !in key
    ensures ' ' !in key + value <==> ' ' !in value
  {
    assert forall j :: 0 <= j < |value| ==> (key + value)[|key| + j] == value[j];
  }

  /** The tokens hold no space exactly when the record's fields hold none. */
  lemma TokensSpaceFree(db: DB, disableSslMode: bool)
    ensures GoStrings.SeparatorFree(Tokens(db, disableSslMode), ' ') <==> SpaceFree(db)
  {
    NoSpaceAfterKey("host=", db.host);
    NoSpaceAfterKey("user=", db.user);
    NoSpaceAfterKey("password=", db.password);
    NoSpaceAfterKey("dbname=", db.name);
    NoSpaceAfterKey("sslmode=", SslMode(disableSslMode));
    var t := Tokens(db, disableSslMode);
    assert t[0] == "host=" + db.host && t[1] == "user=" + db.user && t[2] == "password=" + db.password;
    assert t[3] == "dbname=" + db.name && t[4] == "sslmode=" + SslMode(disableSslMode);
  }

  /** Read back by splitting at spaces, the connection string yields exactly its five
      key=value tokens, in order, when no field contains a space. */
  lemma ConnectionStringTokens(db: DB, disableSslMode: bool)
    requires SpaceFree(db)
    ensures GoStrings.Split(ConnectionString(db, disableSslMode), ' ')
              == ["host=" + db.host, "user=" + db.user, "password=" + db.password,
                  "dbname=" + db.name, "sslmode=" + SslMode(disableSslMode)]
  {
    ConnectionStringIsJoin(db, disableSslMode);
    TokensSpaceFree(db, disableSslMode);
    GoStrings.SplitJoin(Tokens(db, disableSslMode), ' ');
  }

  /** The fields are not escaped: the connection string splits into exactly five tokens
      if and only if no field contains a space, and into more otherwise. */
  lemma ConnectionStringFiveTokensIffSpaceFree(db: DB, disableSslMode: bool)
    ensures |GoStrings.Split(ConnectionString(db, disableSslMode), ' ')| >= 5
    ensures |GoStrings.Split(ConnectionString(db, disableSslMode), ' ')| == 5 <==> SpaceFree(db)
  {
    ConnectionStringIsJoin(db, disableSslMode);
    TokensSpaceFree(db, disableSslMode);
    GoStrings.SplitJoinCount(Tokens(db, disableSslMode), ' ');
  }

  /** Fills the output document the way SaveYAML fills its nested map: an empty inner
      map under `env`, then `driver` and `open` stored into it. */
  function NewDocument(env: string, open: string): (doc: Document)
    ensures doc.Keys == {env}
    ensures doc[env].Keys == {"driver", "open"}
    ensures doc[env]["driver"] == Driver
    ensures doc[env]["open"] == open
  {
    var inner: map<string, string> := map[];
    var inner := inner["driver" := Driver];
    var inner := inner["open" := open];
    assert |"driver"| != |"open"|;
    map[env := inner]
  }

  /** The filled document, written as a map display. */
  lemma NewDocumentDisplay(env: string, open: string)
    ensures NewDocument(env, open) == map[env := map["driver" := Driver, "open" := open]]
  {
  }

  /** The document SaveYAML marshals: one entry, keyed by the environment label, holding
      the fixed driver name and the connection string. */
  function BuildOutput(env: string, db: DB, disableSslMode: bool): (doc: Document)
    ensures doc.Keys == {env}
    ensures doc[env].Keys == {"driver", "open"}
    ensures doc[env]["driver"] == "postgres"
    ensures doc[env]["open"] == ConnectionString(db, disableSslMode)
  {
    NewDocument(env, ConnectionString(db, disableSslMode))
  }

  /** How SaveYAML ended. `NilDereference` is the runtime panic from reading a field
      through a nil `*Values`. */
  datatype SaveStatus = Saved | SaveFailed(err: Error) | NilDereference

  /** The end state of SaveYAML and the one file write it issued, if any. */
  datatype SaveOutcome = SaveOutcome(status: SaveStatus, written: Option<(string, Bytes)>)

  /** SaveYAML: build the document, marshal it, write it to `output`. The only errors
      come from marshalling and writing; a nil `v` crashes before anything is written. */
  function SaveYaml(v: Option<Values>, env: string, disableSslMode: bool, output: string,
                    marshal: Document -> Result<Bytes, Error>,
                    writeFile: (string, Bytes) -> Option<Error>): (o: SaveOutcome)
    ensures o.status.NilDereference? <==> v.None?
    ensures v.None? ==> o.written.None?
    ensures v.Some? ==>
              var y := marshal(BuildOutput(env, v.value.db, disableSslMode));
              && (y.Failure? ==> o == SaveOutcome(SaveFailed(y.error), None))
              && (y.Success? ==> o.written == Some((output, y.value)))
              && (y.Success? && writeFile(output, y.value).Some? ==>
                    o.status == SaveFailed(writeFile(output, y.value).value))
              && (o.status.Saved? <==> y.Success? && writeFile(output, y.value).None?)
  {
    if v.None? then SaveOutcome(NilDereference, None)
    else
      var temp := BuildOutput(env, v.value.db, disableSslMode);
      var y := marshal(temp);
      if y.Failure? then SaveOutcome(SaveFailed(y.error), None)
      else
        var err := writeFile(output, y.value);
        if err.Some? then SaveOutcome(SaveFailed(err.value), Some((output, y.value)))
        else SaveOutcome(Saved, Some((output, y.value)))
  }
}
