/**
 * The two tables of `Cargo.toml` the preprocessor reads (`CargoToml` and
 * `CargoPackage` in src/lib.rs) and the package-over-workspace precedence of
 * its `name()` and `version()` accessors. Parsing the TOML text is not part of
 * this model: a manifest is given as the already-parsed value.
 */
module Manifest {
  import opened Wrappers

  /** A `[package]` or `[workspace]` table: both fields are required strings. */
  datatype CargoPackage = CargoPackage(name: string, version: string)

  /** The parsed manifest; either table may be missing. */
  datatype CargoToml = CargoToml(package: Option<CargoPackage>, workspace: Option<CargoPackage>)

  /** Why `Cargo.toml` could not be used: it could not be read, or it is not valid TOML of this shape. */
  datatype ManifestError = ReadError | ParseError

  /** The table the identity is taken from: `[package]`, else `[workspace]`. */
  function Package(m: CargoToml): (r: Option<CargoPackage>)
    ensures m.package.Some? ==> r == m.package
    ensures m.package.None? ==> r == m.workspace
  {
    m.package.Or(m.workspace)
  }

  /** `CargoToml::name`. */
  function Name(m: CargoToml): (r: Option<string>)
    ensures r.Some? <==> m.package.Some? || m.workspace.Some?
  {
    match Package(m)
    case Some(pkg) => Some(pkg.name)
    case None => None
  }

  /** `CargoToml::version`. */
  function Version(m: CargoToml): (r: Option<string>)
    ensures r.Some? <==> m.package.Some? || m.workspace.Some?
  {
    match Package(m)
    case Some(pkg) => Some(pkg.version)
    case None => None
  }

  /** Each accessor answers from `[package]` when it is present, from `[workspace]` otherwise, and is absent when neither is. */
  lemma NamePrecedence(m: CargoToml)
    ensures m.package.Some? ==> Name(m) == Some(m.package.value.name) && Version(m) == Some(m.package.value.version)
    ensures m.package.None? && m.workspace.Some? ==> Name(m) == Some(m.workspace.value.name) && Version(m) == Some(m.workspace.value.version)
    ensures m.package.None? && m.workspace.None? ==> Name(m).None? && Version(m).None?
  {
  }

  /**
   * The fallback is chosen once per table, not per field: name and version are
   * always present together, and they are the two fields of one table.
   */
  lemma SameTable(m: CargoToml)
    ensures Name(m).Some? <==> Version(m).Some?
    ensures Name(m).Some? ==>
      (m.package.Some? && Name(m) == Some(m.package.value.name) && Version(m) == Some(m.package.value.version)) ||
      (m.package.None? && Name(m) == Some(m.workspace.value.name) && Version(m) == Some(m.workspace.value.version))
  {
  }

  /** Both tables present (foo 1.0 / bar 2.0) gives foo 1.0; only `[workspace]` (bar 2.0) gives bar 2.0. */
  lemma PrecedenceExamples()
    ensures var m := CargoToml(Some(CargoPackage("foo", "1.0")), Some(CargoPackage("bar", "2.0")));
      Name(m) == Some("foo") && Version(m) == Some("1.0")
    ensures var m := CargoToml(None, Some(CargoPackage("bar", "2.0")));
      Name(m) == Some("bar") && Version(m) == Some("2.0")
  {
  }
}
