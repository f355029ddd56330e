/** The program's `main` after flag parsing: read the value file, derive the
    environment label from its name, and save the output document. A Go panic, whether
    raised explicitly or by a nil dereference, ends the run before anything else happens. */
module Main {
  import opened Wrappers
  import opened Values
  import opened Output
  import GoFilepath
  import GoStrings

  /** The parsed command line. */
  datatype Options = Options(valueFile: string, outputFile: string, disableSslMode: bool)

  /** How the process ends. */
  datatype Exit = Completed | Panicked(err: Error) | NilDereference

  /** The end state of a run and the one file write it issued, if any. */
  datatype RunOutcome = RunOutcome(exit: Exit, written: Option<(string, Bytes)>)

  /** The path ends with a separator. */
  predicate EndsWithSeparator(path: string) {
    |path| > 0 && path[|path| - 1] == GoFilepath.Separator
  }

  /** The environment label: the base name of the value file with the extension of the
      whole path trimmed off its end. */
  function EnvLabel(valueFile: string): (env: string)
    ensures env <= GoFilepath.Base(valueFile)
    ensures GoFilepath.Ext(valueFile) == "" ==> env == GoFilepath.Base(valueFile)
  {
    GoStrings.TrimSuffix(GoFilepath.Base(valueFile), GoFilepath.Ext(valueFile))
  }

  /** A path that does not end with a separator has its last element as base name. */
  lemma BaseIsLastElement(path: string)
    requires path != "" && !EndsWithSeparator(path)
    ensures GoFilepath.Base(path) == GoFilepath.LastElement(path)
  {
    GoFilepath.BaseWithoutTrailingSeparator(path);
  }

  /** A path that ends with a separator has an empty last element, hence no extension. */
  lemma NoExtensionAfterSeparator(path: string)
    requires EndsWithSeparator(path)
    ensures GoFilepath.LastElement(path) == ""
    ensures GoFilepath.Ext(path) == ""
  {
  }

  /** When the path does not end with a separator, the extension is a suffix of the base
      name, so trimming it and putting it back gives the base name: only that one final
      extension is removed. */
  lemma LabelPlusExtIsBase(valueFile: string)
    requires !EndsWithSeparator(valueFile)
    ensures EnvLabel(valueFile) + GoFilepath.Ext(valueFile) == GoFilepath.Base(valueFile)
  {
    if valueFile != "" {
      BaseIsLastElement(valueFile);
    }
  }

  /** The label is the whole base name exactly when the path is empty, ends with a
      separator, or its base name has no '.'. */
  lemma LabelIsBaseIff(valueFile: string)
    ensures EnvLabel(valueFile) == GoFilepath.Base(valueFile) <==>
              valueFile == "" || EndsWithSeparator(valueFile) || '.' !in GoFilepath.Base(valueFile)
  {
    if EndsWithSeparator(valueFile) {
      NoExtensionAfterSeparator(valueFile);
    } else if valueFile != "" {
      BaseIsLastElement(valueFile);
      LabelPlusExtIsBase(valueFile);
    }
  }

  /** The label is a prefix of the base name and holds no separator, except for a path
      made only of separators, whose base name and label are both "/". */
  lemma LabelShape(valueFile: string)
    ensures EnvLabel(valueFile) <= GoFilepath.Base(valueFile)
    ensures GoFilepath.Separator !in EnvLabel(valueFile)
            || (GoFilepath.Base(valueFile) == "/" && EnvLabel(valueFile) == "/")
  {
    if valueFile != "" && GoFilepath.AllSeparators(valueFile) {
      NoExtensionAfterSeparator(valueFile);
    } else {
      GoStrings.PrefixOmits(EnvLabel(valueFile), GoFilepath.Base(valueFile), GoFilepath.Separator);
    }
  }

  /** The label of `dir + stem + ext`, with `ext` a single extension, is `stem`. */
  lemma LabelOfFileName(dir: string, stem: string, ext: string)
    requires dir == "" || dir[|dir| - 1] == GoFilepath.Separator
    requires GoFilepath.Separator !in stem
    requires |ext| > 0 && ext[0] == '.' && '.' !in ext[1..] && GoFilepath.Separator !in ext
    ensures EnvLabel(dir + stem + ext) == stem
  {
    assert GoFilepath.Separator !in stem + ext by {
      assert forall i :: 0 <= i < |stem + ext| ==> (stem + ext)[i] in stem || (stem + ext)[i] in ext;
    }
    assert dir + stem + ext == dir + (stem + ext) + "";
    GoFilepath.BaseOfJoin(dir, stem + ext, "");
    assert dir + stem + ext == (dir + stem) + ext;
    GoFilepath.ExtOfAppend(dir + stem, ext);
    assert (stem + ext)[|stem + ext| - |ext|..] == ext;
    assert (stem + ext)[..|stem|] == stem;
  }

  /** A file name without '.' is its own label. */
  lemma LabelOfPlainFileName(dir: string, name: string)
    requires dir == "" || dir[|dir| - 1] == GoFilepath.Separator
    requires name != "" && GoFilepath.Separator !in name && '.' !in name
    ensures EnvLabel(dir + name) == name
  {
    assert dir + name == dir + name + "";
    GoFilepath.BaseOfJoin(dir, name, "");
    LabelIsBaseIff(dir + name);
  }

  // The example lemmas below take the path as a parameter fixed by `requires` rather
  // than writing the literal inside `EnvLabel(...)`: with a literal argument the
  // verifier evaluates Base and Ext character by character, which is far costlier
  // than applying the general lemmas to a named path.

  /** A single extension is trimmed from a bare file name. */
  lemma LabelOfStaging(valueFile: string)
    requires valueFile == "staging.yaml"
    ensures EnvLabel(valueFile) == "staging"
  {
    assert valueFile == "" + "staging" + ".yaml";
    LabelOfFileName("", "staging", ".yaml");
  }

  /** The directory part is dropped. */
  lemma LabelOfNestedFile(valueFile: string)
    requires valueFile == "helm/production.yaml"
    ensures EnvLabel(valueFile) == "production"
  {
    assert valueFile == "helm/" + "production" + ".yaml";
    LabelOfFileName("helm/", "production", ".yaml");
  }

  /** Only the last extension is trimmed. */
  lemma LabelOfDoubleExtension(valueFile: string)
    requires valueFile == "a.tar.gz"
    ensures EnvLabel(valueFile) == "a.tar"
  {
    assert valueFile == "" + "a.tar" + ".gz";
    LabelOfFileName("", "a.tar", ".gz");
  }

  /** With a trailing separator Ext sees no extension, so the label keeps the dot. */
  lemma LabelOfTrailingSeparator(valueFile: string)
    requires valueFile == "values/staging.yaml/"
    ensures EnvLabel(valueFile) == "staging.yaml"
  {
    assert valueFile == "values/" + "staging.yaml" + "/";
    GoFilepath.BaseOfJoin("values/", "staging.yaml", "/");
    NoExtensionAfterSeparator(valueFile);
  }

  /** The document a run writes for a decoded record. */
  function OutputFor(opts: Options, db: DB): Document
  {
    BuildOutput(EnvLabel(opts.valueFile), db, opts.disableSslMode)
  }

  /** The rest of `main` once readYAML has returned: panic on its error, otherwise
      derive the label and save, panicking on a save error. */
  function AfterRead(read: ReadReturn, opts: Options,
                     marshal: Document -> Result<Bytes, Error>,
                     writeFile: (string, Bytes) -> Option<Error>): (o: RunOutcome)
    ensures read.err.Some? ==> o == RunOutcome(Panicked(read.err.value), None)
    ensures read.err.None? && read.values.None? ==> o == RunOutcome(Exit.NilDereference, None)
    ensures read.err.None? && read.values.Some? ==>
              var y := marshal(OutputFor(opts, read.values.value.db));
              && (y.Failure? ==> o == RunOutcome(Panicked(y.error), None))
              && (y.Success? ==> o.written == Some((opts.outputFile, y.value)))
              && (y.Success? && writeFile(opts.outputFile, y.value).Some? ==>
                    o.exit == Panicked(writeFile(opts.outputFile, y.value).value))
              && (o.exit.Completed? <==> y.Success? && writeFile(opts.outputFile, y.value).None?)
  {
    if read.err.Some? then RunOutcome(Panicked(read.err.value), None)
    else
      var env := EnvLabel(opts.valueFile);
      var saved := SaveYaml(read.values, env, opts.disableSslMode, opts.outputFile, marshal, writeFile);
      var exit := match saved.status
        case Saved => Completed
        case SaveFailed(e) => Panicked(e)
        case NilDereference => Exit.NilDereference;
      RunOutcome(exit, saved.written)
  }

  /** `main` as written. A missing file panics with the read error and writes nothing;
      an undecodable file reaches SaveYAML with a nil record and crashes there, also
      before anything is written; otherwise the document for the decoded record is
      marshalled and written to the output path. */
  function Run(opts: Options,
               readFile: string -> Result<Bytes, Error>,
               unmarshal: Bytes -> Result<map<string, string>, Error>,
               marshal: Document -> Result<Bytes, Error>,
               writeFile: (string, Bytes) -> Option<Error>): (o: RunOutcome)
    ensures readFile(opts.valueFile).Failure? ==>
              o == RunOutcome(Panicked(readFile(opts.valueFile).error), None)
    ensures readFile(opts.valueFile).Success? && unmarshal(readFile(opts.valueFile).value).Failure? ==>
              o == RunOutcome(Exit.NilDereference, None)
    ensures readFile(opts.valueFile).Success? && unmarshal(readFile(opts.valueFile).value).Success? ==>
              var v := DecodeInto(unmarshal(readFile(opts.valueFile).value).value);
              o == AfterRead(ReadReturn(Some(v), None), opts, marshal, writeFile)
  {
    AfterRead(ReadYaml(opts.valueFile, readFile, unmarshal), opts, marshal, writeFile)
  }

  /** The only write a run makes is the document for the decoded record, marshalled,
      to the output path. */
  lemma RunWritesOnlyDocument(opts: Options,
                              readFile: string -> Result<Bytes, Error>,
                              unmarshal: Bytes -> Result<map<string, string>, Error>,
                              marshal: Document -> Result<Bytes, Error>,
                              writeFile: (string, Bytes) -> Option<Error>)
    ensures var o := Run(opts, readFile, unmarshal, marshal, writeFile);
            o.written.Some? ==>
              && readFile(opts.valueFile).Success?
              && unmarshal(readFile(opts.valueFile).value).Success?
              && var db := DecodeInto(unmarshal(readFile(opts.valueFile).value).value).db;
                 && marshal(OutputFor(opts, db)).Success?
                 && o.written == Some((opts.outputFile, marshal(OutputFor(opts, db)).value))
  {
    var o := Run(opts, readFile, unmarshal, marshal, writeFile);
    var r := readFile(opts.valueFile);
    if r.Failure? || unmarshal(r.value).Failure? {
      assert o.written.None?;
    } else {
      var v := DecodeInto(unmarshal(r.value).value);
      assert o == AfterRead(ReadReturn(Some(v), None), opts, marshal, writeFile);
      var y := marshal(OutputFor(opts, v.db));
      if y.Success? {
        assert o.written == Some((opts.outputFile, y.value));
      } else {
        assert o.written.None?;
      }
    }
  }

  /** A run completes exactly when the file is read and decoded and the document for the
      decoded record is marshalled and written. */
  lemma RunCompletesIff(opts: Options,
                        readFile: string -> Result<Bytes, Error>,
                        unmarshal: Bytes -> Result<map<string, string>, Error>,
                        marshal: Document -> Result<Bytes, Error>,
                        writeFile: (string, Bytes) -> Option<Error>)
    ensures Run(opts, readFile, unmarshal, marshal, writeFile).exit.Completed? <==>
              && readFile(opts.valueFile).Success?
              && unmarshal(readFile(opts.valueFile).value).Success?
              && var db := DecodeInto(unmarshal(readFile(opts.valueFile).value).value).db;
                 && marshal(OutputFor(opts, db)).Success?
                 && writeFile(opts.outputFile, marshal(OutputFor(opts, db)).value).None?
  {
    var r := readFile(opts.valueFile);
    if r.Success? && unmarshal(r.value).Success? {
      var v := DecodeInto(unmarshal(r.value).value);
      assert Run(opts, readFile, unmarshal, marshal, writeFile)
             == AfterRead(ReadReturn(Some(v), None), opts, marshal, writeFile);
    }
  }

  /** `main` with the corrected readYAML: an undecodable file panics with the decoding
      error, and in every other case it behaves as `Run`. No run reaches the nil
      dereference, apart from a top-level `null` document, which the decode parameter
      cannot express (see README, "Left out"). */
  function RunFixed(opts: Options,
                    readFile: string -> Result<Bytes, Error>,
                    unmarshal: Bytes -> Result<map<string, string>, Error>,
                    marshal: Document -> Result<Bytes, Error>,
                    writeFile: (string, Bytes) -> Option<Error>): (o: RunOutcome)
    ensures !o.exit.NilDereference?
    ensures readFile(opts.valueFile).Success? && unmarshal(readFile(opts.valueFile).value).Failure? ==>
              o == RunOutcome(Panicked(unmarshal(readFile(opts.valueFile).value).error), None)
    ensures readFile(opts.valueFile).Failure? || unmarshal(readFile(opts.valueFile).value).Success? ==>
              o == Run(opts, readFile, unmarshal, marshal, writeFile)
  {
    AfterRead(ReadYamlFixed(opts.valueFile, readFile, unmarshal), opts, marshal, writeFile)
  }

  /** The process exit status: 0 on completion, 2 for any Go panic. */
  function ExitCode(exit: Exit): (code: int)
    ensures code == 0 <==> exit.Completed?
    ensures code != 0 ==> code == 2
  {
    match exit
    case Completed => 0
    case Panicked(_) => 2
    case NilDereference => 2
  }

  /** A run on `dir/stem.ext` writes a document with the single key `stem`, holding the
      driver and the connection string of the decoded record. */
  lemma OutputForFileName(dir: string, stem: string, ext: string, out: string, disableSslMode: bool, db: DB)
    requires dir == "" || dir[|dir| - 1] == GoFilepath.Separator
    requires GoFilepath.Separator !in stem
    requires |ext| > 0 && ext[0] == '.' && '.' !in ext[1..] && GoFilepath.Separator !in ext
    ensures OutputFor(Options(dir + stem + ext, out, disableSslMode), db)
            == map[stem := map["driver" := "postgres", "open" := ConnectionString(db, disableSslMode)]]
  {
    LabelOfFileName(dir, stem, ext);
    NewDocumentDisplay(stem, ConnectionString(db, disableSslMode));
  }

  /** A value file without a `password` key decodes to an empty password, and the
      connection string then has `password=` with nothing before ` dbname=`. */
  lemma MissingPasswordIsEmpty(fields: map<string, string>, disableSslMode: bool)
    requires "password" !in fields
    ensures DecodeInto(fields).db.password == ""
    ensures var db := DecodeInto(fields).db;
            ConnectionString(db, disableSslMode)
            == "host=" + db.host + " user=" + db.user + " password=" + " dbname=" + db.name
               + " sslmode=" + SslMode(disableSslMode)
  {
    var db := DecodeInto(fields).db;
    ConnectionStringSpelledOut(db, disableSslMode);
    var before := "host=" + db.host + " user=" + db.user + " password=";
    assert before + db.password == before;
  }

  /** When the other fields hold no space, a missing password makes the third token of
      the connection string `password=`. */
  lemma MissingPasswordToken(fields: map<string, string>, disableSslMode: bool)
    requires "password" !in fields
    requires SpaceFree(DecodeInto(fields).db)
    ensures var tokens := GoStrings.Split(ConnectionString(DecodeInto(fields).db, disableSslMode), ' ');
            |tokens| == 5 && tokens[2] == "password="
  {
    ConnectionStringTokens(DecodeInto(fields).db, disableSslMode);
  }
}
