/*
 * The JSON block-type builder (`Piranha.Builder.Json.BlockTypeBuilder`):
 * a fluent list of configuration files, and a build step that imports the
 * block types of each file through the storage API.
 *
 * The file system is a map from file name to content; a file that is not a
 * key does not exist. Deserialization either fails or yields a
 * `BlockTypeConfig`. `AssertConfigIsValid` is the caller-supplied predicate
 * `isValid`, whose rules are not modelled. The storage API records the
 * block types passed to `Save`, in call order.
 */
module BuilderJson {
  import opened Extend

  /** One entry of the builder's file list. */
  datatype ConfigFile = ConfigFile(filename: string, optional: bool)

  /** A deserialized configuration document. */
  datatype BlockTypeConfig = BlockTypeConfig(blockTypes: seq<BlockType>)

  /** What reading and deserializing an existing file produces. */
  datatype Content = Unparsable | Json(config: BlockTypeConfig)

  type FileSystem = map<string, Content>

  /** The exceptions `Build` can end with. */
  datatype BuildError =
    | FileNotFound(filename: string)
    | ParseError(filename: string)
    | InvalidConfig(filename: string)
  {
    function Filename(): string
    {
      match this
      case FileNotFound(f) => f
      case ParseError(f) => f
      case InvalidConfig(f) => f
    }
  }

  datatype BuildOutcome = Built | Failed(error: BuildError)

  /** How a build ends, and the block types saved on the way, in order. */
  datatype BuildResult = BuildResult(outcome: BuildOutcome, saves: seq<BlockType>)

  /** What one iteration of the build loop does with one file. */
  datatype FileStep = Skipped | Imported(blockTypes: seq<BlockType>) | Rejected(error: BuildError)

  function ProcessFile(file: ConfigFile, fs: FileSystem, isValid: BlockTypeConfig -> bool): FileStep
  {
    if file.filename in fs then
      match fs[file.filename]
      case Unparsable => Rejected(ParseError(file.filename))
      case Json(config) =>
        if isValid(config) then Imported(config.blockTypes) else Rejected(InvalidConfig(file.filename))
    else if file.optional then Skipped
    else Rejected(FileNotFound(file.filename))
  }

  /** The build loop over `files`, front to back; a rejected file ends it. */
  function BuildFiles(files: seq<ConfigFile>, fs: FileSystem, isValid: BlockTypeConfig -> bool): BuildResult
    decreases |files|
  {
    if files == [] then BuildResult(Built, [])
    else
      match ProcessFile(files[0], fs, isValid)
      case Rejected(e) => BuildResult(Failed(e), [])
      case Skipped => BuildFiles(files[1..], fs, isValid)
      case Imported(types) =>
        var rest := BuildFiles(files[1..], fs, isValid);
        BuildResult(rest.outcome, types + rest.saves)
  }

  /** Running one build after another that did not fail. */
  function Then(first: BuildResult, second: BuildResult): BuildResult
  {
    if first.outcome.Failed? then first
    else BuildResult(second.outcome, first.saves + second.saves)
  }

  // ---------------------------------------------------------------------
  // An independent description of a build

  /** A file the build accepts: it exists, parses and is valid, or it is
      missing and optional. */
  predicate Acceptable(file: ConfigFile, fs: FileSystem, isValid: BlockTypeConfig -> bool)
  {
    if file.filename in fs then fs[file.filename].Json? && isValid(fs[file.filename].config)
    else file.optional
  }

  /** The block types declared by the files that exist and parse, in file
      order and, within a file, in declaration order. */
  function Declared(files: seq<ConfigFile>, fs: FileSystem): seq<BlockType>
  {
    if files == [] then []
    else
      (if files[0].filename in fs && fs[files[0].filename].Json?
       then fs[files[0].filename].config.blockTypes else [])
      + Declared(files[1..], fs)
  }

  lemma {:induction false} DeclaredAppend(a: seq<ConfigFile>, b: seq<ConfigFile>, fs: FileSystem)
    ensures Declared(a + b, fs) == Declared(a, fs) + Declared(b, fs)
  {
    if a == [] {
      assert a + b == b;
    } else {
      assert (a + b)[1..] == a[1..] + b;
      DeclaredAppend(a[1..], b, fs);
    }
  }

  // ---------------------------------------------------------------------
  // Properties of the build

  /** Files are processed strictly in order: building `a + b` is building `a`
      and then, unless that failed, building `b`. */
  lemma {:induction false} BuildFilesAppend(a: seq<ConfigFile>, b: seq<ConfigFile>, fs: FileSystem, isValid: BlockTypeConfig -> bool)
    ensures BuildFiles(a + b, fs, isValid) == Then(BuildFiles(a, fs, isValid), BuildFiles(b, fs, isValid))
  {
    if a == [] {
      assert a + b == b;
    } else {
      assert (a + b)[0] == a[0];
      assert (a + b)[1..] == a[1..] + b;
      BuildFilesAppend(a[1..], b, fs, isValid);
    }
  }

  /** Fail-fast without rollback: once a prefix of the files fails, later
      files are never examined and the saves already made stay. */
  lemma FailureIgnoresLaterFiles(a: seq<ConfigFile>, b: seq<ConfigFile>, fs: FileSystem, isValid: BlockTypeConfig -> bool)
    requires BuildFiles(a, fs, isValid).outcome.Failed?
    ensures BuildFiles(a + b, fs, isValid) == BuildFiles(a, fs, isValid)
  {
    BuildFilesAppend(a, b, fs, isValid);
  }

  /** A missing optional file has no effect at all. */
  lemma MissingOptionalFileIsSkipped(a: seq<ConfigFile>, file: ConfigFile, b: seq<ConfigFile>,
                                     fs: FileSystem, isValid: BlockTypeConfig -> bool)
    requires file.optional && file.filename !in fs
    ensures BuildFiles(a + [file] + b, fs, isValid) == BuildFiles(a + b, fs, isValid)
  {
    BuildFilesAppend(a + [file], b, fs, isValid);
    BuildFilesAppend(a, [file], fs, isValid);
    BuildFilesAppend(a, b, fs, isValid);
    assert BuildFiles([file], fs, isValid) == BuildResult(Built, []);
  }

  /** The result of reaching a file that the build rejects with `e`: the
      build fails with `e` and keeps exactly the saves of the earlier files. */
  lemma {:induction false} RejectedFileStopsBuild(a: seq<ConfigFile>, file: ConfigFile, b: seq<ConfigFile>,
                                fs: FileSystem, isValid: BlockTypeConfig -> bool, e: BuildError)
    requires ProcessFile(file, fs, isValid) == Rejected(e)
    ensures var before := BuildFiles(a, fs, isValid);
      BuildFiles(a + [file] + b, fs, isValid)
        == if before.outcome.Failed? then before else BuildResult(Failed(e), before.saves)
  {
    BuildFilesAppend(a + [file], b, fs, isValid);
    BuildFilesAppend(a, [file], fs, isValid);
    assert BuildFiles([file], fs, isValid) == BuildResult(Failed(e), []);
  }

  /** A missing required file fails the build with not-found, after the
      saves of the earlier files and before those of any later one. */
  lemma MissingRequiredFileFails(a: seq<ConfigFile>, file: ConfigFile, b: seq<ConfigFile>,
                                 fs: FileSystem, isValid: BlockTypeConfig -> bool)
    requires !file.optional && file.filename !in fs
    requires BuildFiles(a, fs, isValid).outcome == Built
    ensures BuildFiles(a + [file] + b, fs, isValid)
         == BuildResult(Failed(FileNotFound(file.filename)), BuildFiles(a, fs, isValid).saves)
  {
    RejectedFileStopsBuild(a, file, b, fs, isValid, FileNotFound(file.filename));
  }

  /** An existing file that does not deserialize fails the build with a
      parse error and saves nothing from it. */
  lemma UnparsableFileFails(a: seq<ConfigFile>, file: ConfigFile, b: seq<ConfigFile>,
                            fs: FileSystem, isValid: BlockTypeConfig -> bool)
    requires file.filename in fs && fs[file.filename] == Unparsable
    requires BuildFiles(a, fs, isValid).outcome == Built
    ensures BuildFiles(a + [file] + b, fs, isValid)
         == BuildResult(Failed(ParseError(file.filename)), BuildFiles(a, fs, isValid).saves)
  {
    RejectedFileStopsBuild(a, file, b, fs, isValid, ParseError(file.filename));
  }

  /** Validation comes before any save: an existing file whose config is
      invalid fails the build and saves none of its block types. */
  lemma InvalidConfigSavesNothing(a: seq<ConfigFile>, file: ConfigFile, b: seq<ConfigFile>,
                                  fs: FileSystem, isValid: BlockTypeConfig -> bool)
    requires file.filename in fs && fs[file.filename].Json? && !isValid(fs[file.filename].config)
    requires BuildFiles(a, fs, isValid).outcome == Built
    ensures BuildFiles(a + [file] + b, fs, isValid)
         == BuildResult(Failed(InvalidConfig(file.filename)), BuildFiles(a, fs, isValid).saves)
  {
    RejectedFileStopsBuild(a, file, b, fs, isValid, InvalidConfig(file.filename));
  }

  /** A build succeeds exactly when every file is acceptable, and then the
      saves are all declared block types, in file and declaration order. */
  lemma {:induction false} BuildSucceedsIff(files: seq<ConfigFile>, fs: FileSystem, isValid: BlockTypeConfig -> bool)
    ensures BuildFiles(files, fs, isValid).outcome == Built
        <==> forall i :: 0 <= i < |files| ==> Acceptable(files[i], fs, isValid)
    ensures BuildFiles(files, fs, isValid).outcome == Built
        ==> BuildFiles(files, fs, isValid).saves == Declared(files, fs)
  {
    if files != [] {
      BuildSucceedsIff(files[1..], fs, isValid);
      if forall i :: 0 <= i < |files| - 1 ==> Acceptable(files[1..][i], fs, isValid) {
        forall i | 1 <= i < |files| ensures Acceptable(files[i], fs, isValid) {
          assert files[i] == files[1..][i - 1];
        }
      } else {
        var i :| 0 <= i < |files| - 1 && !Acceptable(files[1..][i], fs, isValid);
        assert !Acceptable(files[i + 1], fs, isValid);
      }
    }
  }

  /** A build that fails stops at the first unacceptable file k: the error
      names that file, and the saves are the block types of files 0..k-1. */
  lemma BuildFailsAtFirstRejected(files: seq<ConfigFile>, fs: FileSystem, isValid: BlockTypeConfig -> bool, k: nat)
    requires k < |files| && !Acceptable(files[k], fs, isValid)
    requires forall j :: 0 <= j < k ==> Acceptable(files[j], fs, isValid)
    ensures BuildFiles(files, fs, isValid).outcome.Failed?
    ensures BuildFiles(files, fs, isValid).outcome.error.Filename() == files[k].filename
    ensures BuildFiles(files, fs, isValid).saves == Declared(files[..k], fs)
    ensures BuildFiles(files, fs, isValid).saves <= Declared(files, fs)
  {
    var a := files[..k];
    assert files == a + [files[k]] + files[k + 1..];
    BuildSucceedsIff(a, fs, isValid);
    assert forall j :: 0 <= j < |a| ==> a[j] == files[j];
    var step := ProcessFile(files[k], fs, isValid);
    assert step.Rejected?;
    RejectedFileStopsBuild(a, files[k], files[k + 1..], fs, isValid, step.error);
    assert files == a + files[k..];
    DeclaredAppend(a, files[k..], fs);
  }

  /** An example: a required `types.json` declaring the block
      type `hero`, then a missing optional `extra.json`. */
  lemma HeroExample(isValid: BlockTypeConfig -> bool)
    requires isValid(BlockTypeConfig([BlockType("hero", "Hero")]))
    ensures var fs := map["types.json" := Json(BlockTypeConfig([BlockType("hero", "Hero")]))];
      BuildFiles([ConfigFile("types.json", false), ConfigFile("extra.json", true)], fs, isValid)
        == BuildResult(Built, [BlockType("hero", "Hero")])
  {
    var fs := map["types.json" := Json(BlockTypeConfig([BlockType("hero", "Hero")]))];
    assert "extra.json" !in fs;
  }

  // ---------------------------------------------------------------------
  // The objects

  /** The block-type part of the storage API: every saved block type is
      recorded, in call order. */
  class BlockTypeApi {
    var saved: seq<BlockType>

    constructor ()
      ensures saved == []
    {
      saved := [];
    }

    method Save(blockType: BlockType)
      modifies this
      ensures saved == old(saved) + [blockType]
    {
      saved := saved + [blockType];
    }
  }

  class BlockTypeBuilder {
    var files: seq<ConfigFile>
    const api: BlockTypeApi

    constructor (api: BlockTypeApi)
      ensures files == [] && this.api == api
    {
      files := [];
      this.api := api;
    }

    /** Appends one file (required unless `optional` is given) to the list
        and returns this builder for chaining. */
    method AddJsonFile(filename: string, optional: bool := false) returns (builder: BlockTypeBuilder)
      modifies this
      ensures files == old(files) + [ConfigFile(filename, optional)]
      ensures builder == this
    {
      files := files + [ConfigFile(filename, optional)];
      builder := this;
    }

    /** Imports the block types of every listed file, in order, stopping at
        the first file it rejects. The file list is left as it was, so a
        second build on the same file system saves the same block types
        again. */
    method Build(fs: FileSystem, isValid: BlockTypeConfig -> bool) returns (outcome: BuildOutcome)
      modifies api
      ensures files == old(files)
      ensures var r := BuildFiles(files, fs, isValid);
        api.saved == old(api.saved) + r.saves && outcome == r.outcome
    {
      var i := 0;
      while i < |files|
        invariant 0 <= i <= |files|
        invariant BuildFiles(files[..i], fs, isValid).outcome == Built
        invariant api.saved == old(api.saved) + BuildFiles(files[..i], fs, isValid).saves
      {
        var file := files[i];
        assert files[..i + 1] == files[..i] + [file];
        BuildFilesAppend(files[..i], [file], fs, isValid);
        if file.filename in fs {
          var content := fs[file.filename];
          if content.Unparsable? {
            outcome := Failed(ParseError(file.filename));
            assert files == files[..i + 1] + files[i + 1..];
            FailureIgnoresLaterFiles(files[..i + 1], files[i + 1..], fs, isValid);
            return;
          }
          if !isValid(content.config) {
            outcome := Failed(InvalidConfig(file.filename));
            assert files == files[..i + 1] + files[i + 1..];
            FailureIgnoresLaterFiles(files[..i + 1], files[i + 1..], fs, isValid);
            return;
          }
          var types := content.config.blockTypes;
          ghost var before := api.saved;
          var j := 0;
          while j < |types|
            invariant 0 <= j <= |types|
            invariant api.saved == before + types[..j]
          {
            api.Save(types[j]);
            assert types[..j + 1] == types[..j] + [types[j]];
            j := j + 1;
          }
          assert types[..j] == types;
        } else if !file.optional {
          outcome := Failed(FileNotFound(file.filename));
          assert files == files[..i + 1] + files[i + 1..];
          FailureIgnoresLaterFiles(files[..i + 1], files[i + 1..], fs, isValid);
          return;
        }
        i := i + 1;
      }
      outcome := Built;
      assert files[..i] == files;
    }
  }
}
