/**
 * `Processor::run` (src/lib.rs:96-151) end to end: resolve the configuration,
 * read the manifest from the workspace directory, look up the revision in the
 * git directory, compose the footer and, unless it is empty, append it to
 * every chapter. The file system and the git repository are parameters: the
 * manifest as seen from a directory, and the HEAD commit id found from a
 * directory (or nothing).
 */
module Preprocessor {
  import opened Wrappers
  import opened Settings
  import opened Manifest
  import opened Revision
  import opened Footer
  import opened BookTree

  /** The errors that abort a run. */
  datatype RunError = ConfigFailed(config: ConfigError) | ManifestFailed(manifest: ManifestError)

  /** `Processor::name`, the identifier the configuration keys are namespaced under. */
  const PreprocessorName: string := "build-annotations"

  /** All six keys `TryFrom` reads sit under the preprocessor's own table, and no two are the same. */
  lemma KeysUnderOwnTable()
    ensures forall j :: 0 <= j < |Lookups| ==> "preprocessor." + PreprocessorName + "." <= Lookups[j].0
    ensures forall i, j :: 0 <= i < j < |Lookups| ==> Lookups[i].0 != Lookups[j].0
  {
  }

  /** `Book::for_each_mut`: the visitor over the book's top-level sections. */
  method BookForEachMut(book: Book, f: BookItem -> BookItem) returns (r: Book)
    ensures r.sections == Visit(book.sections, f)
  {
    var sections := ForEachMut(book.sections, f);
    r := book.(sections := sections);
  }

  method Run(
    src: map<string, TomlValue>,
    manifestIn: string -> Result<CargoToml, ManifestError>,
    headIn: string -> Option<CommitId>,
    book: Book)
    returns (r: Result<Book, RunError>)
    ensures TryFrom(src).Err? ==> r == Err(ConfigFailed(TryFrom(src).error))
    ensures TryFrom(src).Ok? && manifestIn(TryFrom(src).value.workspaceDir).Err? ==>
      r == Err(ManifestFailed(manifestIn(TryFrom(src).value.workspaceDir).error))
    ensures TryFrom(src).Ok? && manifestIn(TryFrom(src).value.workspaceDir).Ok? ==>
      var cfg := TryFrom(src).value;
      var m := manifestIn(cfg.workspaceDir).value;
      var head := headIn(cfg.gitDir);
      var rev := if head.Some? then Some(Truncate(head.value, cfg.commitCharacters)) else None;
      var footer := FooterText(cfg, Name(m), rev, Version(m));
      r.Ok? &&
      (footer.None? ==> r.value == book) &&
      (footer.Some? ==> r.value.sections == Annotate(book.sections, footer.value))
  {
    var cfgOrErr := TryFrom(src);
    if cfgOrErr.Err? {
      return Err(ConfigFailed(cfgOrErr.error));
    }
    var cfg := cfgOrErr.value;
    var manifestOrErr := manifestIn(cfg.workspaceDir);
    if manifestOrErr.Err? {
      return Err(ManifestFailed(manifestOrErr.error));
    }
    var cargoToml := manifestOrErr.value;
    var commit := DetermineGitRev(headIn(cfg.gitDir), cfg.commitCharacters);
    if commit.Some? {
      PrefixOfLength(headIn(cfg.gitDir).value, commit.value, cfg.commitCharacters);
    }
    assert commit == if headIn(cfg.gitDir).Some? then Some(Truncate(headIn(cfg.gitDir).value, cfg.commitCharacters)) else None;
    var footer := ComposeBody(cfg, Name(cargoToml), commit, Version(cargoToml));
    if footer == "" {
      return Ok(book);
    }
    footer := "<footer>" + footer + "</footer>";
    var annotated := BookForEachMut(book, Handler(footer));
    r := Ok(annotated);
  }

  /** With no name, no version and no repository there is nothing to add, whatever the flags. */
  lemma NoFactsNoFooter(cfg: Config, m: CargoToml)
    requires m.package.None? && m.workspace.None?
    ensures FooterText(cfg, Name(m), None, Version(m)).None?
  {
    BodyEmptyIff(cfg, Name(m), None, Version(m));
  }
}
