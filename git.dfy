/**
 * Asking git about tags. The shell is an oracle: `stdout(cmd)` is the
 * decoded standard output of a command, or the empty string when there
 * is none; `shell_stdout` returns it trimmed. The ghost `log` records
 * every command run, so that caching can be stated as "no new command".
 */
module Git {
  import opened Wrappers
  import opened Text

  class Shell {
    const stdout: string -> string
    ghost var log: seq<string>

    constructor (stdout: string -> string)
      ensures this.stdout == stdout && log == []
    {
      this.stdout := stdout;
      log := [];
    }

    /** What `shell_stdout(cmd)` returns: the output, trimmed. */
    function Output(cmd: string): (r: string)
      ensures IsStripped(r)
    {
      Strip(stdout(cmd))
    }

    /** Runs `cmd` once and returns its trimmed output. */
    method Run(cmd: string) returns (out: string)
      modifies this
      ensures out == Output(cmd) && IsStripped(out)
      ensures log == old(log) + [cmd]
    {
      out := Strip(stdout(cmd));
      log := log + [cmd];
    }
  }

  /** The `git describe` command for a commit, with `--match` when a non-empty pattern is given. */
  function DescribeCommand(sha: string, tagMatch: Option<string>): string {
    var cmd := "git describe " + sha + " --contains";
    if tagMatch.Some? && |tagMatch.value| > 0 then cmd + " --match=" + tagMatch.value else cmd
  }

  /** The command that prints the date of the commit a tag points at. */
  function DateCommand(tag: string): string {
    "git log -1 --format=%ad " + tag
  }

  /** `~` and `^` separate a tag name from the distance `git describe` appends, and so does `:`. */
  predicate IsSeparator(c: char) {
    c == '~' || c == '^' || c == ':'
  }

  /**
   * The tag name in the output of `git describe --contains`: the output
   * with `~` and `^` turned into `:`, up to the first `:`. That is the
   * longest prefix without a separator.
   */
  function TagName(rev: string): (r: string)
    ensures |r| <= |rev| && r == rev[..|r|]
    ensures forall i :: 0 <= i < |r| ==> !IsSeparator(r[i])
    ensures |r| < |rev| ==> IsSeparator(rev[|r|])
  {
    var t := Replace(Replace(rev, '~', ':'), '^', ':');
    var n := IndexOf(t, ':');
    assert forall i :: 0 <= i < |rev| ==> (t[i] == ':' <==> IsSeparator(rev[i]));
    assert forall i :: 0 <= i < n ==> t[i] == rev[i];
    t[..n]
  }

  /** A git tag; its date is read from git on first use and kept. */
  class Tag {
    const name: string
    /** `_date`: absent until first read; then the parsed date, or `None` when it did not parse. */
    var dateCache: Option<Option<int>>

    constructor (name: string)
      ensures this.name == name && dateCache == None
    {
      this.name := name;
      dateCache := None;
    }

    /**
     * `Tag.date`: the first read runs one `git log` and parses its output
     * with `parseDate` (`None` for a date that does not parse); every later
     * read returns the cached value without running git.
     */
    method Date(sh: Shell, parseDate: string -> Option<int>) returns (d: Option<int>)
      modifies this, sh
      ensures old(dateCache).Some? ==> d == old(dateCache).value && sh.log == old(sh.log)
      ensures old(dateCache).None? ==>
        d == parseDate(sh.Output(DateCommand(name))) && sh.log == old(sh.log) + [DateCommand(name)]
      ensures dateCache == Some(d)
    {
      if dateCache.None? {
        var out := sh.Run(DateCommand(name));
        dateCache := Some(parseDate(out));
      }
      d := dateCache.value;
    }
  }

  /**
   * `Tag.from_sha`: runs `git describe` once; empty output means no tag
   * contains the commit, otherwise the tag is named by the output.
   */
  method FromSha(sh: Shell, sha: string, tagMatch: Option<string>) returns (t: Tag?)
    modifies sh
    ensures sh.log == old(sh.log) + [DescribeCommand(sha, tagMatch)]
    ensures var out := sh.Output(DescribeCommand(sha, tagMatch));
      (t == null <==> out == []) && (t != null ==> fresh(t) && t.name == TagName(out) && t.dateCache.None?)
  {
    var out := sh.Run(DescribeCommand(sha, tagMatch));
    if |out| == 0 {
      t := null;
    } else {
      t := new Tag(TagName(out));
    }
  }

  /** Reading a tag's date twice runs git once and gives the same answer. */
  method DateTwice(t: Tag, sh: Shell, parseDate: string -> Option<int>) returns (first: Option<int>, second: Option<int>)
    requires t.dateCache.None?
    modifies t, sh
    ensures first == second == parseDate(sh.Output(DateCommand(t.name)))
    ensures sh.log == old(sh.log) + [DateCommand(t.name)]
  {
    first := t.Date(sh, parseDate);
    second := t.Date(sh, parseDate);
  }

  /** `0.1~8` names the tag `0.1`; a name ends at the first `~`, `^` or `:`. */
  lemma TagNameExample(rev: string)
    requires rev == "0.1" + "~8"
    ensures TagName(rev) == "0.1"
  {
    assert rev[3] == '~';
    assert forall i :: 0 <= i < 3 ==> !IsSeparator(rev[i]);
    TagNameIsLongest(rev, 3);
  }

  /** The tag name is the prefix up to the first separator. */
  lemma TagNameIsLongest(rev: string, n: nat)
    requires n <= |rev|
    requires forall i :: 0 <= i < n ==> !IsSeparator(rev[i])
    requires n == |rev| || IsSeparator(rev[n])
    ensures TagName(rev) == rev[..n]
  {
  }
}
