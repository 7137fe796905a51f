/**
 * Footer composition, the body of `Processor::run` from src/lib.rs:112-146.
 * The source builds a string in three guarded steps (name, `@commit`,
 * `v<version>`), putting a space before the second and third only when
 * something has been written already. The reference definition below
 * describes the same string another way: the list of fragments that are both
 * enabled and available, with the empty ones dropped and the rest joined by
 * single spaces.
 */
module Footer {
  import opened Wrappers
  import opened Settings

  /** The fragments that are enabled and available, in the fixed order name, commit, version. */
  function Fragments(cfg: Config, name: Option<string>, commit: Option<string>, version: Option<string>): seq<string> {
    (if cfg.packageName && name.Some? then [name.value] else []) +
    (if cfg.gitCommit && commit.Some? then ["@" + commit.value] else []) +
    (if cfg.packageVersion && version.Some? then ["v" + version.value] else [])
  }

  /** The fragments of `fs` that are not empty, in their order. */
  function NonEmpty(fs: seq<string>): (r: seq<string>)
    ensures forall i :: 0 <= i < |r| ==> r[i] != ""
    ensures |r| <= |fs|
  {
    if fs == [] then []
    else if fs[0] == "" then NonEmpty(fs[1..])
    else [fs[0]] + NonEmpty(fs[1..])
  }

  /** `gs` joined with a single space between consecutive elements. */
  function JoinSpaced(gs: seq<string>): string {
    if gs == [] then ""
    else if |gs| == 1 then gs[0]
    else gs[0] + " " + JoinSpaced(gs[1..])
  }

  /** The footer body: the non-empty fragments joined by single spaces. */
  function Body(cfg: Config, name: Option<string>, commit: Option<string>, version: Option<string>): string {
    JoinSpaced(NonEmpty(Fragments(cfg, name, commit, version)))
  }

  /** The complete footer, or `None` when nothing was composed and the book is to be left alone. */
  function FooterText(cfg: Config, name: Option<string>, commit: Option<string>, version: Option<string>): (r: Option<string>)
    ensures r.None? <==> Body(cfg, name, commit, version) == ""
    ensures r.Some? ==> r.value == "<footer>" + Body(cfg, name, commit, version) + "</footer>"
  {
    var body := Body(cfg, name, commit, version);
    if body == "" then None else Some("<footer>" + body + "</footer>")
  }

  /**
   * Lines 112-140: the step-by-step build of the footer body. A missing fact
   * is skipped (the source logs an error there); a space goes in before the
   * commit and version fragments only when the text so far is non-empty.
   */
  method ComposeBody(cfg: Config, name: Option<string>, commit: Option<string>, version: Option<string>)
    returns (footer: string)
    ensures footer == Body(cfg, name, commit, version)
  {
    ghost var done: seq<string> := [];
    footer := "";
    if cfg.packageName {
      if name.Some? {
        footer := footer + name.value;
        done := done + [name.value];
      }
    }
    assert footer == JoinSpaced(NonEmpty(done));
    if cfg.gitCommit {
      if commit.Some? {
        if footer != "" {
          footer := footer + " ";
        }
        footer := footer + ("@" + commit.value);
        JoinAppend(done, "@" + commit.value);
        done := done + ["@" + commit.value];
      }
    }
    assert footer == JoinSpaced(NonEmpty(done));
    if cfg.packageVersion {
      if version.Some? {
        if footer != "" {
          footer := footer + " ";
        }
        footer := footer + ("v" + version.value);
        JoinAppend(done, "v" + version.value);
        done := done + ["v" + version.value];
      }
    }
    assert done == Fragments(cfg, name, commit, version);
  }

  /** Appending a non-empty fragment adds it after one space, or alone if the joined text was empty. */
  lemma {:induction false} JoinAppend(fs: seq<string>, f: string)
    requires f != ""
    ensures JoinSpaced(NonEmpty(fs + [f])) ==
      if JoinSpaced(NonEmpty(fs)) == "" then f else JoinSpaced(NonEmpty(fs)) + " " + f
  {
    NonEmptyAppend(fs, f);
    JoinEmptyIff(NonEmpty(fs));
    if NonEmpty(fs) == [] {
      assert NonEmpty(fs + [f]) == [f];
    } else {
      JoinSpacedAppend(NonEmpty(fs), f);
    }
  }

  lemma {:induction false} NonEmptyAppend(fs: seq<string>, f: string)
    ensures NonEmpty(fs + [f]) == NonEmpty(fs) + (if f == "" then [] else [f])
  {
    if fs == [] {
      assert fs + [f] == [f];
    } else {
      assert (fs + [f])[1..] == fs[1..] + [f];
      NonEmptyAppend(fs[1..], f);
    }
  }

  lemma {:induction false} JoinSpacedAppend(gs: seq<string>, f: string)
    requires gs != []
    ensures JoinSpaced(gs + [f]) == JoinSpaced(gs) + " " + f
  {
    if |gs| == 1 {
      assert (gs + [f])[1..] == [f];
    } else {
      assert (gs + [f])[1..] == gs[1..] + [f];
      JoinSpacedAppend(gs[1..], f);
    }
  }

  /** Joining non-empty strings gives the empty string exactly when there are none. */
  lemma {:induction false} JoinEmptyIff(gs: seq<string>)
    requires forall i :: 0 <= i < |gs| ==> gs[i] != ""
    ensures JoinSpaced(gs) == "" <==> gs == []
  {
    if |gs| > 1 {
      assert |JoinSpaced(gs)| >= |gs[0]| > 0;
    }
  }

  /** The body is empty exactly when no enabled fact is available, counting an empty name as nothing. */
  lemma BodyEmptyIff(cfg: Config, name: Option<string>, commit: Option<string>, version: Option<string>)
    ensures Body(cfg, name, commit, version) == "" <==>
      !(cfg.packageName && name.Some? && name.value != "") &&
      !(cfg.gitCommit && commit.Some?) &&
      !(cfg.packageVersion && version.Some?)
  {
    var fs := Fragments(cfg, name, commit, version);
    NonEmptyAll(fs);
    JoinEmptyIff(NonEmpty(fs));
    NonEmptyNil(fs);
    if cfg.gitCommit && commit.Some? {
      assert "@" + commit.value in fs && ("@" + commit.value)[0] == '@';
    }
    if cfg.packageVersion && version.Some? {
      assert "v" + version.value in fs && ("v" + version.value)[0] == 'v';
    }
    if cfg.packageName && name.Some? {
      assert fs[0] == name.value;
    }
  }

  lemma {:induction false} NonEmptyAll(fs: seq<string>)
    ensures forall g :: g in NonEmpty(fs) ==> g in fs
  {
    if fs != [] {
      NonEmptyAll(fs[1..]);
    }
  }

  /** Nothing survives the filter exactly when every fragment is empty. */
  lemma {:induction false} NonEmptyNil(fs: seq<string>)
    ensures NonEmpty(fs) == [] <==> forall i :: 0 <= i < |fs| ==> fs[i] == ""
  {
    if fs != [] {
      NonEmptyNil(fs[1..]);
      assert forall i :: 1 <= i < |fs| ==> fs[i] == fs[1..][i - 1];
    }
  }

  /** A requested but missing fact leaves no placeholder: it is as if its flag were off. */
  lemma MissingFactOmitted(cfg: Config, name: Option<string>, commit: Option<string>, version: Option<string>)
    ensures Body(cfg, None, commit, version) == Body(cfg.(packageName := false), name, commit, version)
    ensures Body(cfg, name, None, version) == Body(cfg.(gitCommit := false), name, commit, version)
    ensures Body(cfg, name, commit, None) == Body(cfg.(packageVersion := false), name, commit, version)
  {
  }

  /** An empty-string name contributes nothing, and so no separator either. */
  lemma {:induction false} EmptyNameAddsNothing(cfg: Config, commit: Option<string>, version: Option<string>)
    ensures Body(cfg, Some(""), commit, version) == Body(cfg, None, commit, version)
  {
    var rest := Fragments(cfg, None, commit, version);
    if cfg.packageName {
      assert Fragments(cfg, Some(""), commit, version) == [""] + rest;
      assert ([""] + rest)[1..] == rest;
    }
  }

  /** The order is name, commit, version whatever the flags, with no leading separator when the name is off. */
  lemma {:induction false} OrderExamples(cfg: Config, name: string, commit: string, version: string)
    requires name != ""
    ensures cfg.packageName && cfg.gitCommit && cfg.packageVersion ==>
      Body(cfg, Some(name), Some(commit), Some(version)) == name + " @" + commit + " v" + version
    ensures !cfg.packageName && cfg.gitCommit && cfg.packageVersion ==>
      FooterText(cfg, Some(name), Some(commit), Some(version)) == Some("<footer>@" + commit + " v" + version + "</footer>")
  {
    var c, v := "@" + commit, "v" + version;
    assert c[0] == '@' && v[0] == 'v';
    if cfg.gitCommit && cfg.packageVersion {
      if cfg.packageName {
        assert NonEmpty([v]) == [v];
        assert [name, c, v][1..] == [c, v] && [c, v][1..] == [v];
        assert NonEmpty([name, c, v]) == [name, c, v];
        assert Fragments(cfg, Some(name), Some(commit), Some(version)) == [name, c, v];
        assert JoinSpaced([c, v]) == c + " " + v;
        assert JoinSpaced([name, c, v]) == name + " " + JoinSpaced([c, v]);
        assert " " + (c + " " + v) == " @" + commit + " v" + version;
      } else {
        assert [c, v][1..] == [v];
        assert NonEmpty([c, v]) == [c, v];
        assert Fragments(cfg, Some(name), Some(commit), Some(version)) == [c, v];
        assert JoinSpaced([c, v]) == c + " " + v;
        assert "<footer>" + (c + " " + v) + "</footer>" == "<footer>@" + commit + " v" + version + "</footer>";
      }
    }
  }

  /** No leading or trailing space and no two spaces in a row. */
  predicate Tidy(s: string) {
    forall i :: 0 <= i < |s| && s[i] == ' ' ==> 0 < i < |s| - 1 && s[i + 1] != ' '
  }

  lemma TidyJoin2(a: string, b: string)
    requires a != "" && b != "" && Tidy(a) && Tidy(b)
    ensures Tidy(a + " " + b)
  {
    var s := a + " " + b;
    forall i | 0 <= i < |s| && s[i] == ' '
      ensures 0 < i < |s| - 1 && s[i + 1] != ' '
    {
      if i < |a| {
        assert s[i] == a[i];
        if i + 1 < |a| {
          assert s[i + 1] == a[i + 1];
        }
      } else if i > |a| {
        assert s[i] == b[i - |a| - 1];
        if i + 1 < |s| {
          assert s[i + 1] == b[i - |a|];
        }
      } else {
        assert s[i + 1] == b[0];
      }
    }
  }

  lemma {:induction false} TidyJoin(gs: seq<string>)
    requires forall i :: 0 <= i < |gs| ==> gs[i] != "" && Tidy(gs[i])
    ensures Tidy(JoinSpaced(gs))
  {
    if |gs| > 1 {
      TidyJoin(gs[1..]);
      JoinEmptyIff(gs[1..]);
      TidyJoin2(gs[0], JoinSpaced(gs[1..]));
    }
  }

  lemma TidyPrefixed(c: char, s: string)
    requires c != ' ' && Tidy(s) && (s != [] ==> s[0] != ' ')
    ensures Tidy([c] + s)
  {
    var t := [c] + s;
    forall i | 0 <= i < |t| && t[i] == ' '
      ensures 0 < i < |t| - 1 && t[i + 1] != ' '
    {
      assert t[i] == s[i - 1];
      if i < |t| - 1 {
        assert t[i + 1] == s[i];
      }
    }
  }

  lemma {:induction false} TidyNonEmpty(fs: seq<string>)
    requires forall i :: 0 <= i < |fs| ==> Tidy(fs[i])
    ensures forall i :: 0 <= i < |NonEmpty(fs)| ==> Tidy(NonEmpty(fs)[i])
  {
    if fs != [] {
      TidyNonEmpty(fs[1..]);
    }
  }

  /**
   * When the facts themselves are tidy, so is the body: there is never a
   * leading or trailing space and never a double space.
   */
  lemma BodyTidy(cfg: Config, name: Option<string>, commit: Option<string>, version: Option<string>)
    requires name.Some? ==> Tidy(name.value)
    requires commit.Some? ==> Tidy(commit.value)
    requires version.Some? ==> Tidy(version.value)
    ensures Tidy(Body(cfg, name, commit, version))
  {
    if commit.Some? {
      TidyPrefixed('@', commit.value);
      assert "@" + commit.value == ['@'] + commit.value;
    }
    if version.Some? {
      TidyPrefixed('v', version.value);
      assert "v" + version.value == ['v'] + version.value;
    }
    var fs := Fragments(cfg, name, commit, version);
    TidyNonEmpty(fs);
    TidyJoin(NonEmpty(fs));
  }
}
