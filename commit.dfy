/**
 * One commit (`Commit`): its message is decoded as YAML, every attribute
 * is formatted, the trailers are flattened into the top level and the
 * result is parsed against the commit schema. When any of that raises, the
 * commit is a degraded record that knows only its sha. Also the attribute
 * lookup with its schema fallback, the cached tag, the `lint` pass rule
 * and the pull-request range.
 *
 * YAML decoding (`decode`, `None` when the text is not YAML) and
 * `formaldict.Schema.parse` (`parse`) are parameters.
 */
module Commits {
  import opened Wrappers
  import opened Errors
  import opened Text
  import opened Yaml
  import opened Format
  import opened Values
  import opened Query
  import opened Git

  /** What `formaldict.Schema.parse` returns: the parsed values, the data as given, and the validation errors. */
  datatype SchemaData = SchemaData(parsed: Mapping, data: Mapping, errors: seq<Error>)

  /** The state the constructor leaves: `schema_data` and `_is_parsed`. */
  datatype Record = Record(schemaData: SchemaData, isParsed: bool)

  // ---------------------------------------------------------------------
  // Formatting and flattening
  // ---------------------------------------------------------------------

  /** `{key: _format_commit_attr(key, value) for key, value in data.items()}`; the first failure is raised. */
  function FormatAll(m: Mapping): (r: Result<Mapping, Error>)
    ensures r.Ok? ==> |r.value| == |m|
  {
    if |m| == 0 then Ok([])
    else
      var head := FormatAttr(m[0].0, m[0].1);
      if head.Err? then Err(head.error)
      else
        var rest := FormatAll(m[1..]);
        if rest.Err? then rest else Ok([(m[0].0, head.value)] + rest.value)
  }

  /** Formatting keeps each key in its place and formats its value. */
  lemma {:induction false} FormatAllAt(m: Mapping, i: nat)
    requires FormatAll(m).Ok? && i < |m|
    ensures FormatAttr(m[i].0, m[i].1).Ok?
    ensures FormatAll(m).value[i] == (m[i].0, FormatAttr(m[i].0, m[i].1).value)
  {
    if i > 0 {
      FormatAllAt(m[1..], i - 1);
    }
  }

  /** Formatting succeeds exactly when every attribute formats. */
  lemma {:induction false} FormatAllOk(m: Mapping)
    ensures FormatAll(m).Ok? <==> forall i :: 0 <= i < |m| ==> FormatAttr(m[i].0, m[i].1).Ok?
  {
    if |m| > 0 {
      FormatAllOk(m[1..]);
      if FormatAll(m).Ok? {
        forall i | 0 <= i < |m|
          ensures FormatAttr(m[i].0, m[i].1).Ok?
        {
          FormatAllAt(m, i);
        }
      } else if FormatAttr(m[0].0, m[0].1).Ok? {
        var i :| 0 <= i < |m[1..]| && !FormatAttr(m[1..][i].0, m[1..][i].1).Ok?;
        assert m[1..][i] == m[i + 1];
      }
    }
  }

  /** Looking a key up after formatting finds its formatted value. */
  lemma {:induction false} FormatAllLookup(m: Mapping, k: string)
    requires FormatAll(m).Ok?
    ensures Lookup(m, k).Some? ==>
      FormatAttr(k, Lookup(m, k).value).Ok? && Lookup(FormatAll(m).value, k) == Some(FormatAttr(k, Lookup(m, k).value).value)
    ensures Lookup(m, k).None? ==> Lookup(FormatAll(m).value, k).None?
  {
    if |m| > 0 {
      FormatAllLookup(m[1..], k);
    }
  }

  /** The formatted `trailers` attribute is a mapping without repeated keys. */
  lemma FormattedTrailers(m: Mapping)
    requires FormatAll(m).Ok?
    ensures var t := Lookup(FormatAll(m).value, "trailers");
      t.Some? ==> t.value.YMap? && UniqueKeys(t.value.entries)
  {
    FormatAllLookup(m, "trailers");
    var v := Lookup(m, "trailers");
    if v.Some? {
      var n :| 0 <= n < |m| && m[n] == ("trailers", v.value);
      FormatAllAt(m, n);
    }
  }

  /**
   * `{**{k: v for k, v in data.items() if k != 'trailers'}, **trailers}`:
   * the attributes without `trailers`, then every trailer put over them.
   */
  function Flatten(data: Mapping, trailers: Mapping): Mapping {
    PutAll(Remove(data, "trailers"), trailers)
  }

  /** A trailer wins over a top-level attribute of the same name; `trailers` itself is gone unless a trailer has that name. */
  lemma FlattenLookup(data: Mapping, trailers: Mapping, k: string)
    requires UniqueKeys(trailers)
    ensures Lookup(Flatten(data, trailers), k)
      == if Lookup(trailers, k).Some? then Lookup(trailers, k)
         else if k == "trailers" then None
         else Lookup(data, k)
  {
    PutAllLookup(Remove(data, "trailers"), trailers, k);
    UniqueLast(trailers, k);
  }

  // ---------------------------------------------------------------------
  // Construction
  // ---------------------------------------------------------------------

  /**
   * The attributes handed to `parse`: decoded, formatted and flattened,
   * or `None` when a step raises (not YAML, not a mapping, an attribute
   * that does not format, no `trailers` key, trailers that are not a
   * mapping).
   */
  function Attributes(msg: string, decode: string -> Option<Yaml>): Option<Mapping> {
    var doc := decode(msg);
    if doc.None? || !doc.value.YMap? then None
    else
      var formatted := FormatAll(doc.value.entries);
      if formatted.Err? then None
      else
        var t := Lookup(formatted.value, "trailers");
        if t.None? || !t.value.YMap? then None
        else Some(Flatten(formatted.value, t.value.entries))
  }

  predicate IsHex(c: char) {
    IsDigit(c) || 'a' <= c <= 'f' || 'A' <= c <= 'F'
  }

  /** The end of the run of hexadecimal digits that starts at `i`. */
  function HexEnd(s: string, i: nat): (n: nat)
    requires i <= |s|
    ensures i <= n <= |s|
    ensures forall j :: i <= j < n ==> IsHex(s[j])
    ensures n < |s| ==> !IsHex(s[n])
    decreases |s| - i
  {
    if i < |s| && IsHex(s[i]) then HexEnd(s, i + 1) else i
  }

  /** `msg` starts with the line `sha: <h>` for a non-empty hexadecimal `h`. */
  predicate ShaLine(msg: string, h: string) {
    |h| > 0 && (forall j :: 0 <= j < |h| ==> IsHex(h[j]))
    && |msg| > |h| + 5 && msg[..5] == "sha: " && msg[5..|h| + 5] == h && msg[|h| + 5] == '\n'
  }

  /** `re.match(r'sha: (?P<sha>[a-fA-F\d]+)\n', msg).group('sha')`, or `None` when it does not match. */
  function LeadingSha(msg: string): (r: Option<string>)
    ensures r.Some? ==> ShaLine(msg, r.value)
  {
    if |msg| >= 5 && msg[..5] == "sha: " then
      var n := HexEnd(msg, 5);
      if n > 5 && n < |msg| && msg[n] == '\n' then Some(msg[5..n]) else None
    else None
  }

  /** The sha found is exactly the one of the leading `sha:` line; there is at most one. */
  lemma LeadingShaIff(msg: string, h: string)
    ensures LeadingSha(msg) == Some(h) <==> ShaLine(msg, h)
  {
    if ShaLine(msg, h) {
      var n := HexEnd(msg, 5);
      forall j | 5 <= j < |h| + 5
        ensures IsHex(msg[j])
      {
        assert msg[j] == h[j - 5];
      }
      assert n == |h| + 5;
    }
  }

  /** The record of a commit that could not be parsed: the sha and a single `CommitParseError`. */
  function Degraded(sha: string): SchemaData {
    SchemaData([("sha", YStr(sha))], [("sha", YStr(sha))], [CommitParseError])
  }

  /**
   * `Commit.__init__` on the trimmed message: parsed attributes, or the
   * degraded record; without a leading `sha:` line the failed match
   * raises `AttributeError` on `.group`.
   */
  function Build(msg: string, decode: string -> Option<Yaml>, parse: Mapping -> SchemaData): (r: Result<Record, Error>)
    ensures Attributes(msg, decode).Some? ==> r == Ok(Record(parse(Attributes(msg, decode).value), true))
    ensures Attributes(msg, decode).None? ==> (r.Ok? <==> LeadingSha(msg).Some?)
    ensures r.Ok? && !r.value.isParsed ==>
      ShaLine(msg, LeadingSha(msg).value) && r.value.schemaData == Degraded(LeadingSha(msg).value)
    ensures r.Err? ==> r.error == AttributeError("group")
  {
    var attrs := Attributes(msg, decode);
    if attrs.Some? then Ok(Record(parse(attrs.value), true))
    else
      var sha := LeadingSha(msg);
      if sha.None? then Err(AttributeError("group"))
      else
        LeadingShaIff(msg, sha.value);
        Ok(Record(Degraded(sha.value), false))
  }

  /** A message whose `trailers` attribute is missing makes a degraded record. */
  lemma MissingTrailersDegrades(msg: string, decode: string -> Option<Yaml>, parse: Mapping -> SchemaData)
    requires decode(msg).Some? && decode(msg).value.YMap?
    requires Lookup(decode(msg).value.entries, "trailers").None?
    ensures Attributes(msg, decode).None?
    ensures Build(msg, decode, parse).Ok? ==> !Build(msg, decode, parse).value.isParsed
  {
    var m := decode(msg).value.entries;
    if FormatAll(m).Ok? {
      FormatAllLookup(m, "trailers");
    }
  }

  /** What the parser receives: a trailer overrides a top-level attribute of the same name. */
  lemma TrailerOverrides(msg: string, decode: string -> Option<Yaml>, k: string)
    requires Attributes(msg, decode).Some?
    ensures var m := decode(msg).value.entries;
      var f := FormatAll(m).value;
      var t := Lookup(f, "trailers").value.entries;
      Lookup(Attributes(msg, decode).value, k)
        == if Lookup(t, k).Some? then Lookup(t, k)
           else if k == "trailers" then None
           else Lookup(f, k)
  {
    var m := decode(msg).value.entries;
    FormattedTrailers(m);
    var f := FormatAll(m).value;
    FlattenLookup(f, Lookup(f, "trailers").value.entries, k);
  }

  // ---------------------------------------------------------------------
  // The commit object
  // ---------------------------------------------------------------------

  /** `str(value)` for the scalar values a sha can take. */
  function Str(y: Yaml): string {
    match y
    case YStr(s) => s
    case YNull => "None"
    case YBool(b) => if b then "True" else "False"
    case YInt(i) => IntStr(i)
    case _ => ""
  }

  function Digits(n: nat): string
    decreases n
  {
    if n < 10 then [('0' as int + n) as char] else Digits(n / 10) + [('0' as int + n % 10) as char]
  }

  function IntStr(i: int): string {
    if i < 0 then "-" + Digits(-i) else Digits(i)
  }

  class Commit {
    /** The trimmed message (`msg`, `data`). */
    const msg: string
    /** The labels of the commit schema (`attr in self._schema`). */
    const schemaLabels: seq<string>
    const tagMatch: Option<string>
    const schemaData: SchemaData
    const isParsed: bool
    /** `_tag`: whether it was looked up, and the tag found (`null` for none). */
    var tagCached: bool
    var tag: Tag?

    constructor (msg: string, schemaLabels: seq<string>, tagMatch: Option<string>, rec: Record)
      ensures this.msg == msg && this.schemaLabels == schemaLabels && this.tagMatch == tagMatch
      ensures schemaData == rec.schemaData && isParsed == rec.isParsed
      ensures !tagCached && tag == null
    {
      this.msg := msg;
      this.schemaLabels := schemaLabels;
      this.tagMatch := tagMatch;
      schemaData := rec.schemaData;
      isParsed := rec.isParsed;
      tagCached := false;
      tag := null;
    }

    /** `is_valid`: validation found no error. */
    predicate IsValid() {
      |schemaData.errors| == 0
    }

    /**
     * `__getattribute__` for a schema attribute: the parsed value; else
     * `None` for a label of the schema; else the `AttributeError` stands.
     */
    function Field(name: string): (r: Result<Yaml, Error>)
      ensures r.Ok? <==> (exists i :: 0 <= i < |schemaData.parsed| && schemaData.parsed[i].0 == name) || name in schemaLabels
      ensures forall i :: (0 <= i < |schemaData.parsed| && schemaData.parsed[i].0 == name
                           && forall j :: 0 <= j < i ==> schemaData.parsed[j].0 != name)
                          ==> r == Ok(schemaData.parsed[i].1)
      ensures r.Ok? && (name, r.value) !in schemaData.parsed ==> r.value == YNull && name in schemaLabels
      ensures r.Err? ==> r.error == AttributeError(name)
    {
      var v := Lookup(schemaData.parsed, name);
      if v.Some? then Ok(v.value)
      else if name in schemaLabels then Ok(YNull)
      else Err(AttributeError(name))
    }

    /**
     * `Commit.tag`: the first read looks the tag up with `git describe`
     * on the commit's sha and keeps it; later reads run nothing. Reading
     * `sha` may itself raise, and then nothing is kept.
     */
    method Tag(sh: Shell) returns (r: Result<Tag?, Error>)
      modifies this, sh
      ensures old(tagCached) ==> r == Ok(old(tag)) && sh.log == old(sh.log) && tagCached && tag == old(tag)
      ensures !old(tagCached) && Field("sha").Err? ==>
        r == Err(Field("sha").error) && sh.log == old(sh.log) && !tagCached
      ensures !old(tagCached) && Field("sha").Ok? ==>
        var cmd := DescribeCommand(Str(Field("sha").value), tagMatch);
        sh.log == old(sh.log) + [cmd] && tagCached && r == Ok(tag)
        && (tag == null <==> sh.Output(cmd) == [])
        && (tag != null ==> fresh(tag) && tag.name == TagName(sh.Output(cmd)) && tag.dateCache.None?)
    {
      if !tagCached {
        var sha := Field("sha");
        if sha.Err? {
          return Err(sha.error);
        }
        var t := FromSha(sh, Str(sha.value), tagMatch);
        tag := t;
        tagCached := true;
      }
      r := Ok(tag);
    }
  }

  /** `Commit(msg, schema, tag_match)`: the message is trimmed first. */
  method NewCommit(raw: string, schemaLabels: seq<string>, tagMatch: Option<string>,
                   decode: string -> Option<Yaml>, parse: Mapping -> SchemaData)
    returns (r: Result<Commit, Error>)
    ensures var b := Build(Strip(raw), decode, parse);
      (r.Ok? <==> b.Ok?) && (r.Err? ==> r.error == b.error)
      && (r.Ok? ==>
            fresh(r.value) && r.value.msg == Strip(raw) && r.value.schemaLabels == schemaLabels
            && r.value.schemaData == b.value.schemaData && r.value.isParsed == b.value.isParsed
            && r.value.tagMatch == tagMatch && !r.value.tagCached && r.value.tag == null)
  {
    var msg := Strip(raw);
    var b := Build(msg, decode, parse);
    if b.Err? {
      return Err(b.error);
    }
    var c := new Commit(msg, schemaLabels, tagMatch, b.value);
    r := Ok(c);
  }

  /**
   * A degraded commit answers `sha` with its sha, `None` for every other
   * label of its schema, and raises for anything else.
   */
  lemma DegradedFields(c: Commit, sha: string, name: string)
    requires !c.isParsed && c.schemaData == Degraded(sha)
    ensures c.Field("sha") == Ok(YStr(sha))
    ensures name != "sha" ==> (c.Field(name).Ok? <==> name in c.schemaLabels)
    ensures name != "sha" && name in c.schemaLabels ==> c.Field(name) == Ok(YNull)
    ensures c.Field(name).Err? ==> c.Field(name) == Err(AttributeError(name))
    ensures !c.IsValid()
  {
  }

  /**
   * On parsed data without repeated keys (a `dict`), a field held by the
   * data reads as its value, whether or not the schema also labels it.
   */
  lemma ParsedField(c: Commit, name: string, v: Yaml)
    requires UniqueKeys(c.schemaData.parsed) && (name, v) in c.schemaData.parsed
    ensures c.Field(name) == Ok(v)
  {
    var m := c.schemaData.parsed;
    var i :| 0 <= i < |m| && m[i] == (name, v);
    assert forall j :: 0 <= j < i ==> m[j].0 != name;
  }

  // ---------------------------------------------------------------------
  // Lint and the pull-request range
  // ---------------------------------------------------------------------

  /**
   * `lint`: by default it passes when `filter('is_valid', False)` is
   * empty, with `any` when `filter('is_valid', True)` is not.
   */
  function Lint(commits: seq<Commit>, any: bool): bool {
    if !any then |Filter(commits, Validity, Equals(VBool(false)))| == 0
    else |Filter(commits, Validity, Equals(VBool(true)))| > 0
  }

  /** The `is_valid` attribute as the query algebra sees it. */
  function Validity(c: Commit): Value {
    VBool(c.IsValid())
  }

  /** Lint passes when no commit is invalid, or, with `any`, when some commit is valid. */
  lemma LintRule(commits: seq<Commit>, any: bool)
    ensures !any ==> (Lint(commits, any) <==> forall i :: 0 <= i < |commits| ==> commits[i].IsValid())
    ensures any ==> (Lint(commits, any) <==> exists i :: 0 <= i < |commits| && commits[i].IsValid())
  {
    var c := Equals(VBool(any));
    FilterEmpty(commits, Validity, c);
    assert forall i :: 0 <= i < |commits| ==> (Holds(c, Validity(commits[i])) <==> commits[i].IsValid() == any);
  }

  /** `_get_pull_request_range`: every commit after the pull request's base. */
  function PullRequestRange(base: string): (r: string)
    ensures |r| == |base| + 2 && r[..|base|] == base && r[|base|..] == ".."
  {
    base + ".."
  }
}
