/**
 * The last step of `determine_git_rev` (src/lib.rs:154-170): the full commit id
 * of HEAD, formatted as hexadecimal, cut down to `commit_characters`
 * characters. Opening the repository and resolving HEAD to a commit are
 * modelled by their outcome, the full id or nothing.
 */
module Revision {
  import opened Wrappers

  predicate IsHexDigit(c: char) {
    '0' <= c <= '9' || 'a' <= c <= 'f'
  }

  /** The `Display` form of a git object id: lower-case hexadecimal digits. */
  type CommitId = s: string | forall i :: 0 <= i < |s| ==> IsHexDigit(s[i])

  function Min(a: nat, b: nat): nat {
    if a <= b then a else b
  }

  /**
   * `String::truncate(n)`: keeps the first `n` characters and leaves a string
   * of at most `n` characters alone. The id is ASCII, so characters and bytes
   * coincide and no char-boundary panic can occur.
   */
  function Truncate(s: CommitId, n: nat): (r: CommitId)
    ensures r <= s
    ensures |r| == Min(n, |s|)
  {
    if n < |s| then s[..n] else s
  }

  /**
   * `determine_git_rev` after the repository has been consulted: `head` is the
   * full id of the commit HEAD peels to, or `None` when the repository cannot be
   * opened or HEAD does not resolve to a commit. The source also gives up when
   * the directory cannot be canonicalized, but that call sits inside a `debug!`
   * argument and so is made only when debug logging is enabled.
   */
  method DetermineGitRev(head: Option<CommitId>, commitCharacters: nat) returns (rev: Option<CommitId>)
    ensures head.None? <==> rev.None?
    ensures head.Some? ==> rev.value <= head.value && |rev.value| == Min(commitCharacters, |head.value|)
  {
    if head.None? {
      return None;
    }
    var commitId := head.value;
    commitId := Truncate(commitId, commitCharacters);
    rev := Some(commitId);
  }

  /** Asking for at least as many characters as the id has returns the id itself. */
  lemma TruncateLongEnough(s: CommitId, n: nat)
    requires n >= |s|
    ensures Truncate(s, n) == s
  {
  }

  /** Asking for fewer returns exactly that many, and zero gives the empty string. */
  lemma TruncateShort(s: CommitId, n: nat)
    requires n < |s|
    ensures |Truncate(s, n)| == n
    ensures n == 0 ==> Truncate(s, n) == ""
  {
  }

  /** The repository's own checks on a 40-character SHA-1 id: 10 gives 10 characters, 100 gives all 40. */
  lemma Sha1Lengths(s: CommitId)
    requires |s| == 40
    ensures |Truncate(s, 10)| == 10
    ensures Truncate(s, 100) == s && |Truncate(s, 100)| == 40
  {
  }

  /** A prefix is fixed by its length, so the contract of `DetermineGitRev` pins its result down. */
  lemma PrefixOfLength(s: CommitId, r: CommitId, n: nat)
    requires r <= s && |r| == Min(n, |s|)
    ensures r == Truncate(s, n)
  {
  }
}
