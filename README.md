# mdbook-buildtime-annotations, modelled in Dafny

mdbook-buildtime-annotations is an mdbook preprocessor that adds a build-provenance footer to every
chapter of a book. The footer can hold the package name, a shortened git commit id and the
package version. This project models the decision logic of `src/lib.rs` and proves what
that logic promises:

- `Manifest`: the two identity tables of `Cargo.toml` (`[package]` and `[workspace]`) and the
  package-over-workspace precedence of `name()` and `version()`.
- `Settings`: `Config` and `Config::try_from`. Six keys under
  `preprocessor.build-annotations.` each default when missing. A value of the wrong type
  aborts resolution with that key's error, and keys are looked up in the source's order.
- `Revision`: the truncation step of `determine_git_rev`. The repository lookup is modelled by its
  outcome: the full hexadecimal id of the commit HEAD points to, or nothing.
- `Footer`: the footer composition in `Processor::run`, which builds a string from name,
  `@commit` and `v<version>` step by step. It is proved equal to a reference definition: the enabled
  and available fragments, with empty ones dropped, joined by single spaces.
- `BookTree`: mdbook's book items, `handle_bookitem`, and mdbook's `for_each_mut` visitor. The visitor
  is a recursive method with a loop, proved against a reference function.
- `Preprocessor`: `Processor::run` end to end. The manifest reader and the git lookup are
  function parameters that take the configured directory.

Inputs that are I/O in the source are parameters here:
- the host's configuration: a map from dotted key to TOML value;
- the manifest as read from a directory: `string -> Result<CargoToml, ManifestError>`;
- the HEAD commit found from a directory: `string -> Option<CommitId>`.

The fallback is chosen per table (`package()` on src/lib.rs:28-30), not per field. Both fields
of a table are required, so this gives the same answers as falling back field by field. The model
follows the code's per-table form.

## Model

| member | source | states |
|---|---|---|
| Wrappers.Option.Or | src/lib.rs:29 | `Option::or`: this value when present, otherwise the other; present exactly when either is |
| Manifest.Package | src/lib.rs:28-30 | the `[package]` table when present, otherwise the `[workspace]` table (possibly absent) |
| Manifest.Name | src/lib.rs:32-34 | a name is available exactly when one of the two tables is present |
| Manifest.Version | src/lib.rs:36-38 | a version is available exactly when one of the two tables is present |
| Manifest.NamePrecedence | src/lib.rs:26-38 | name and version come from `[package]` if present, else from `[workspace]`, else both are absent |
| Manifest.SameTable | src/lib.rs:28-45 | name and version are present together and are the two fields of one table, never a package name with a workspace version |
| Manifest.PrecedenceExamples | src/lib.rs:18-38 | both tables (foo 1.0 / bar 2.0) give foo and 1.0; only the workspace table gives bar and 2.0 |
| Settings.CfgKey | src/lib.rs:67 | a key is the namespace `preprocessor.build-annotations.` followed by exactly the field name |
| Settings.GetUsize | src/lib.rs:69 | lookup succeeds exactly when the key is missing or holds a non-negative integer below 2^64; missing gives `None`, present gives that integer, otherwise the error names the key |
| Settings.GetPath | src/lib.rs:70-74 | lookup succeeds exactly when the key is missing or holds a string; missing gives `None`, present gives that string, otherwise the error names the key |
| Settings.GetBool | src/lib.rs:75-77 | lookup succeeds exactly when the key is missing or holds a boolean; missing gives `None`, present gives that boolean, otherwise the error names the key |
| Settings.GetOr | src/lib.rs:69-77 | `unwrap_or`: the looked-up value when present, otherwise the default |
| Settings.TryFrom | src/lib.rs:66-79 | the first mistyped key in lookup order is the error; otherwise each present key's value is taken as given and each missing key gets its default (10, "../", "../", true, true, true) |
| Settings.DefaultsWhenUnset | src/lib.rs:66-79 | with none of the six keys set, the config is exactly the documented defaults |
| Revision.Truncate | src/lib.rs:166-168 | the result is a prefix of the commit id, of length min(commit_characters, length of the id) |
| Revision.DetermineGitRev | src/lib.rs:154-170 | absent exactly when the repository gave no commit; otherwise a prefix of the full id of length min(commit_characters, id length) |
| Revision.TruncateLongEnough | src/lib.rs:166-169 | a length at least the id's returns the id unchanged, with no padding |
| Revision.TruncateShort | src/lib.rs:166-169 | a length below the id's returns exactly that many characters; 0 returns "" |
| Revision.Sha1Lengths | src/lib.rs:206-218 | for a 40-character id, 10 gives 10 characters and 100 gives the whole 40-character id |
| Footer.ComposeBody | src/lib.rs:112-140 | the step-by-step build equals the non-empty enabled-and-available fragments, in the order name, @commit, vversion, joined by single spaces |
| Footer.JoinAppend | src/lib.rs:121-136 | adding a fragment puts one space before it exactly when the text built so far is non-empty |
| Footer.FooterText | src/lib.rs:142-146 | no footer exactly when the body is empty; otherwise exactly `<footer>` + body + `</footer>` |
| Footer.BodyEmptyIff | src/lib.rs:112-144 | the body is empty if and only if no enabled fact is available, an empty name counting as nothing |
| Footer.MissingFactOmitted | src/lib.rs:114-140 | a requested but missing fact gives the same body as turning its flag off: no placeholder |
| Footer.EmptyNameAddsNothing | src/lib.rs:114-125 | an empty-string name adds no text and no separator |
| Footer.OrderExamples | src/lib.rs:112-146 | with all facts available the body is `name @commit vversion`; with the name flag off the footer is `<footer>@commit vversion</footer>`, with no leading space |
| Footer.BodyTidy | src/lib.rs:121-140 | if the facts have no leading, trailing or double spaces, neither does the body |
| BookTree.HandleBookItem | src/lib.rs:84-88 | a chapter gets the footer after its old content and keeps every other field; any other item is unchanged |
| BookTree.Visit | src/lib.rs:148 | reference for mdbook's visitor: one visited item per input item, in the same positions |
| BookTree.VisitAt | src/lib.rs:148 | the item at each position is the callback applied to it, after a chapter's sub-items have been visited the same way |
| BookTree.Handler | src/lib.rs:148 | the closure passed to the visitor applies `handle_bookitem` with the footer to every item |
| BookTree.Annotate | src/lib.rs:148 | the footer applied to the book: one result per item, and every non-chapter item unchanged |
| BookTree.AnnotateAt | src/lib.rs:84-88 | a chapter at any position gains the footer after its old content, and its sub-items are annotated the same way |
| BookTree.ForEachMut | src/lib.rs:148 | the in-place walk over the items equals the reference visit: every item, each chapter's sub-items before the chapter |
| BookTree.AnnotatePreservesShape | src/lib.rs:84-88 | after annotating, the tree is the same apart from chapter text: no item is added, removed or moved, and non-chapter items are unchanged |
| BookTree.AnnotateExtendsEveryChapter | src/lib.rs:84-88 | every chapter, nested or top-level, ends with its old content followed by the footer |
| BookTree.AnnotateTwice | src/lib.rs:86 | annotating twice appends both footers in turn; there is no deduplication |
| BookTree.AnnotateExample | src/lib.rs:84-88 | for two chapters around a separator, both chapters gain the footer and the separator stays |
| Preprocessor.KeysUnderOwnTable | src/lib.rs:67-77 | all six keys read by `try_from` lie under `preprocessor.` + the preprocessor's name (lines 92-94) + `.`, and no two are the same |
| Preprocessor.BookForEachMut | src/lib.rs:148 | the book's top-level sections are visited as ForEachMut visits them |
| Preprocessor.Run | src/lib.rs:96-151 | a config error aborts first, then a manifest error; otherwise the book is returned unchanged when there is no footer, and otherwise has the footer appended to every chapter |
| Preprocessor.NoFactsNoFooter | src/lib.rs:142-145 | with no manifest tables and no repository there is no footer, whatever the flags |

## Left out

- TOML parsing of `Cargo.toml` and reading the file (src/lib.rs:100-101). These are a foreign library and file I/O. The manifest is an input value, and the two failures are one `ManifestError` each.
- Opening the repository, resolving and peeling HEAD with `gix`, and `canonicalize` (src/lib.rs:155-165). These are a foreign library and file-system I/O. Their outcome is an `Option<CommitId>` given by a function of the git directory.
- `tracing` diagnostics, including the `debug!` summary on lines 105-110. Apart from the one on lines 155-158, they do not affect results.
- Revision.DetermineGitRev: the `canonicalize` call on src/lib.rs:157 is an argument of `debug!`, so it runs only when debug logging is on (the default level is `INFO`, src/cli.rs:17-21). Only then can a directory that fails to canonicalize end the lookup early. So the lookup's outcome can depend on the log level. The model has no log level: `headIn` is an arbitrary function of the git directory and covers both cases.
- `handle_preprocessing`, `handle_supports`, `src/cli.rs` and `src/main.rs`. These are process I/O: stdin/stdout JSON, the mdbook version warning and exit codes.
- Settings.TryFrom: a configuration value is modelled only by its kind (integer, string, boolean, other). A path is accepted only from a TOML string, and `commit_characters` must be a non-negative integer below 2^64 (a 64-bit `usize`). Other serde conversions of these types are not modelled.
- Revision.Truncate: `String::truncate` counts bytes and panics off a character boundary. Commit ids are ASCII hexadecimal, so the model counts characters and has no panic case.
- BookTree.ForEachMut: the book is a value. The method returns the updated items instead of changing them through `&mut` references, so aliasing is not modelled. Rust's ownership rules out aliasing anyway.
- BookTree.HandleBookItem: a chapter carries name, content, number, sub-items, path and parent names. The `source_path` field and the `Option` wrappers on number and path are left out, because nothing here reads or changes them.
- `Book::for_each_mut` is part of mdbook, not of this repository. Its visiting order (sub-items first, then the chapter) is modelled from mdbook's behaviour. The footer is the same for every chapter, so the order does not affect the result.
