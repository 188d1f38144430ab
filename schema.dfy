/**
 * The commit schema: the built-in entries, the checks a user schema file
 * must pass, and how user entries override built-in ones by label
 * (`_load_commit_schema`). Reading and decoding the file is outside the
 * model: the file arrives as its decoded list of mappings, or as `None`
 * when it cannot be opened.
 */
module Schema {
  import opened Wrappers
  import opened Errors
  import opened Yaml
  import opened Query

  /** One schema entry: `label`, `name`, `help`, `type` and optional further keys. */
  type SchemaEntry = Mapping

  function Entry(lbl: string, name: string, help: string, kind: string): SchemaEntry {
    [("label", YStr(lbl)), ("name", YStr(name)), ("help", YStr(help)), ("type", YStr(kind))]
  }

  /** The labels of the built-in schema, in order. */
  function DefaultLabels(full: bool): seq<string> {
    ["summary", "description"] + GitLabels(full)
  }

  /** The git fields, which the built-in schema has only when `full`. */
  function GitLabels(full: bool): seq<string> {
    if full then ["sha", "author_name", "author_email", "author_date", "committer_name", "committer_email", "committer_date"]
    else []
  }

  /** The display name, help text and type of the built-in field `lbl`. */
  function Described(lbl: string): (string, string, string) {
    match lbl
    case "summary" => ("Summary", "A high-level summary of the commit.", "string")
    case "description" => ("Description", "An in-depth description of the changes.", "string")
    case "sha" => ("SHA", "Full SHA of the commit.", "string")
    case "author_name" => ("Author Name", "The author name of the commit.", "string")
    case "author_email" => ("Author Email", "The author email of the commit.", "string")
    case "author_date" => ("Author Date", "The time at which the commit was authored.", "datetime")
    case "committer_name" => ("Committer Name", "The name of the person who performed the commit.", "string")
    case "committer_email" => ("Committer Email", "The email of the person who performed the commit.", "string")
    case "committer_date" => ("Committer Date", "The time at which the commit was performed.", "datetime")
    case _ => ("", "", "")
  }

  /** The built-in entry for label `lbl`; only the description is multi-line and optional. */
  function DefaultEntry(lbl: string): SchemaEntry {
    var (name, help, kind) := Described(lbl);
    Entry(lbl, name, help, kind)
      + if lbl == "description" then [("multiline", YBool(true)), ("required", YBool(false))] else []
  }

  /** The built-in schema: one entry per built-in label. */
  function DefaultSchema(full: bool): seq<SchemaEntry> {
    var labels := DefaultLabels(full);
    seq(|labels|, i requires 0 <= i < |labels| => DefaultEntry(labels[i]))
  }

  function LabelOf(e: SchemaEntry): Option<Yaml> {
    Lookup(e, "label")
  }

  /** The labels of a schema, entry by entry (`None` for an entry without one). */
  function Labels(s: seq<SchemaEntry>): seq<Option<Yaml>> {
    seq(|s|, i requires 0 <= i < |s| => LabelOf(s[i]))
  }

  /** `entry.get('multiline')` is truthy. */
  predicate MultilineSet(e: SchemaEntry) {
    var m := Lookup(e, "multiline");
    m.Some? && Truthy(m.value)
  }

  /** Why the user schema entry `e`, at position `index`, is refused, if it is. */
  function EntryFault(e: SchemaEntry, index: nat): Option<SchemaFault> {
    if LabelOf(e).None? then Some(MissingLabel(index))
    else if MultilineSet(e) && LabelOf(e).value != YStr("description") then Some(MultilineNotAllowed(index))
    else None
  }

  /** Every entry of the user schema passes the checks. */
  predicate ValidUserSchema(user: seq<SchemaEntry>) {
    forall i :: 0 <= i < |user| ==> EntryFault(user[i], i).None?
  }

  /**
   * The validation loop of `_load_commit_schema`: the first refused entry
   * raises `SchemaError`; a schema without one passes.
   */
  method ValidateUserSchema(user: seq<SchemaEntry>) returns (r: Option<Error>)
    ensures r.None? <==> ValidUserSchema(user)
    ensures r.Some? ==> exists k :: (0 <= k < |user| && EntryFault(user[k], k).Some?
      && r.value == SchemaError(EntryFault(user[k], k).value)
      && forall i :: 0 <= i < k ==> EntryFault(user[i], i).None?)
  {
    for i := 0 to |user|
      invariant forall j :: 0 <= j < i ==> EntryFault(user[j], j).None?
    {
      var lbl := LabelOf(user[i]);
      if lbl.None? {
        return Some(SchemaError(MissingLabel(i)));
      } else if MultilineSet(user[i]) && lbl.value != YStr("description") {
        return Some(SchemaError(MultilineNotAllowed(i)));
      }
    }
    return None;
  }

  /** `user_labels`: the labels the user schema defines. */
  function UserLabels(user: seq<SchemaEntry>): set<Yaml> {
    set i | 0 <= i < |user| && LabelOf(user[i]).Some? :: LabelOf(user[i]).value
  }

  /** A built-in entry whose label the user schema redefines. */
  predicate Overridden(d: SchemaEntry, labels: set<Yaml>) {
    LabelOf(d).Some? && LabelOf(d).value in labels
  }

  /** The built-in entries the user schema does not redefine, in their order. */
  function KeepDefaults(defaults: seq<SchemaEntry>, labels: set<Yaml>): (r: seq<SchemaEntry>)
    ensures |r| <= |defaults|
    ensures forall i :: 0 <= i < |r| ==> !Overridden(r[i], labels)
  {
    if |defaults| == 0 then []
    else (if Overridden(defaults[0], labels) then [] else [defaults[0]]) + KeepDefaults(defaults[1..], labels)
  }

  /** The merged schema: kept built-in entries first, then the user's entries. */
  function MergeSchema(defaults: seq<SchemaEntry>, user: seq<SchemaEntry>): seq<SchemaEntry> {
    KeepDefaults(defaults, UserLabels(user)) + user
  }

  /**
   * `_load_commit_schema(path, full)`: an unreadable file counts as an
   * empty user schema; a refused entry raises `SchemaError`; otherwise the
   * user's entries override the built-in ones with the same label.
   */
  method LoadCommitSchema(full: bool, userFile: Option<seq<SchemaEntry>>) returns (r: Result<seq<SchemaEntry>, Error>)
    ensures var user := if userFile.Some? then userFile.value else [];
      && (r.Ok? <==> ValidUserSchema(user))
      && (r.Ok? ==> r.value == MergeSchema(DefaultSchema(full), user))
      && (r.Err? ==> exists k :: (0 <= k < |user| && EntryFault(user[k], k).Some?
            && r.error == SchemaError(EntryFault(user[k], k).value)))
  {
    var user: seq<SchemaEntry> := [];
    if userFile.Some? {
      user := userFile.value;
    }
    var fault := ValidateUserSchema(user);
    if fault.Some? {
      return Err(fault.value);
    }
    return Ok(MergeSchema(DefaultSchema(full), user));
  }

  /** The kept built-in entries are a subsequence of the built-in schema. */
  lemma {:induction false} KeepDefaultsOrder(defaults: seq<SchemaEntry>, labels: set<Yaml>)
    ensures Subseq(KeepDefaults(defaults, labels), defaults)
  {
    if |defaults| > 0 {
      var d, rest := defaults[0], defaults[1..];
      KeepDefaultsOrder(rest, labels);
      assert defaults == [d] + rest;
      ConsSubseq(d, rest, KeepDefaults(rest, labels), !Overridden(d, labels));
    }
  }

  /** A built-in entry is kept exactly when the user schema does not redefine its label. */
  lemma {:induction false} KeepDefaultsMembers(defaults: seq<SchemaEntry>, labels: set<Yaml>)
    ensures forall i :: 0 <= i < |defaults| ==>
      (defaults[i] in KeepDefaults(defaults, labels) <==> !Overridden(defaults[i], labels))
  {
    if |defaults| > 0 {
      KeepDefaultsMembers(defaults[1..], labels);
      forall i | 0 <= i < |defaults|
        ensures defaults[i] in KeepDefaults(defaults, labels) <==> !Overridden(defaults[i], labels)
      {
        if i > 0 {
          assert defaults[i] == defaults[1..][i - 1];
        }
      }
    }
  }

  /**
   * The merged schema lists the kept built-in entries in their order and
   * then the user's entries in theirs; no kept built-in entry carries a
   * label the user schema defines.
   */
  lemma MergeSchemaShape(defaults: seq<SchemaEntry>, user: seq<SchemaEntry>)
    ensures var m, k := MergeSchema(defaults, user), KeepDefaults(defaults, UserLabels(user));
      && |m| == |k| + |user| && m[|k|..] == user && Subseq(m[..|k|], defaults)
      && forall i :: 0 <= i < |k| ==> LabelOf(m[i]).Some? ==> LabelOf(m[i]).value !in UserLabels(user)
  {
    var labels := UserLabels(user);
    var k := KeepDefaults(defaults, labels);
    KeepDefaultsOrder(defaults, labels);
    assert MergeSchema(defaults, user)[..|k|] == k;
  }

  /**
   * Every label survives the merge: a built-in entry's label is either kept
   * with it or supplied by the user entry that redefines it.
   */
  lemma MergeSchemaLabels(defaults: seq<SchemaEntry>, user: seq<SchemaEntry>)
    ensures forall i :: 0 <= i < |defaults| && LabelOf(defaults[i]).Some? ==>
      LabelOf(defaults[i]) in Labels(MergeSchema(defaults, user))
    ensures forall i :: 0 <= i < |user| ==> LabelOf(user[i]) in Labels(MergeSchema(defaults, user))
  {
    var labels := UserLabels(user);
    var k := KeepDefaults(defaults, labels);
    var m := MergeSchema(defaults, user);
    KeepDefaultsMembers(defaults, labels);
    forall i | 0 <= i < |defaults| && LabelOf(defaults[i]).Some?
      ensures LabelOf(defaults[i]) in Labels(m)
    {
      if Overridden(defaults[i], labels) {
        var j :| 0 <= j < |user| && LabelOf(user[j]).Some? && LabelOf(user[j]).value == LabelOf(defaults[i]).value;
        assert Labels(m)[|k| + j] == LabelOf(user[j]);
      } else {
        var j :| 0 <= j < |k| && k[j] == defaults[i];
        assert Labels(m)[j] == LabelOf(defaults[i]);
      }
    }
    forall i | 0 <= i < |user|
      ensures LabelOf(user[i]) in Labels(m)
    {
      assert Labels(m)[|k| + i] == LabelOf(user[i]);
    }
  }

  /** Schema labels given by name. */
  function Named(names: seq<string>): seq<Option<Yaml>> {
    seq(|names|, i requires 0 <= i < |names| => Some(YStr(names[i])))
  }

  lemma LabelsAppend(a: seq<SchemaEntry>, b: seq<SchemaEntry>)
    ensures Labels(a + b) == Labels(a) + Labels(b)
  {
  }

  lemma UserLabelsCons(e: SchemaEntry, u: seq<SchemaEntry>)
    ensures UserLabels([e] + u) == (if LabelOf(e).Some? then {LabelOf(e).value} else {}) + UserLabels(u)
  {
    var eu := [e] + u;
    forall v | v in UserLabels(eu)
      ensures v in (if LabelOf(e).Some? then {LabelOf(e).value} else {}) + UserLabels(u)
    {
      var i :| 0 <= i < |eu| && LabelOf(eu[i]).Some? && LabelOf(eu[i]).value == v;
      if i > 0 {
        assert eu[i] == u[i - 1];
      }
    }
    forall v | v in UserLabels(u)
      ensures v in UserLabels(eu)
    {
      var i :| 0 <= i < |u| && LabelOf(u[i]).Some? && LabelOf(u[i]).value == v;
      assert eu[i + 1] == u[i];
    }
    if LabelOf(e).Some? {
      assert eu[0] == e;
    }
  }

  lemma {:induction false} KeepDefaultsAppend(a: seq<SchemaEntry>, b: seq<SchemaEntry>, labels: set<Yaml>)
    ensures KeepDefaults(a + b, labels) == KeepDefaults(a, labels) + KeepDefaults(b, labels)
  {
    if |a| == 0 {
      assert a + b == b;
    } else {
      assert (a + b)[1..] == a[1..] + b;
      KeepDefaultsAppend(a[1..], b, labels);
      var head := if Overridden(a[0], labels) then [] else [a[0]];
      assert head + (KeepDefaults(a[1..], labels) + KeepDefaults(b, labels))
        == (head + KeepDefaults(a[1..], labels)) + KeepDefaults(b, labels);
    }
  }

  /** With no built-in entry redefined, every one is kept. */
  lemma {:induction false} KeepDefaultsAll(defaults: seq<SchemaEntry>, labels: set<Yaml>)
    requires forall i :: 0 <= i < |defaults| ==> !Overridden(defaults[i], labels)
    ensures KeepDefaults(defaults, labels) == defaults
  {
    if |defaults| > 0 {
      KeepDefaultsAll(defaults[1..], labels);
    }
  }

  /** Every built-in entry carries its own label. */
  lemma DefaultEntryLabel(lbl: string)
    ensures LabelOf(DefaultEntry(lbl)) == Some(YStr(lbl))
  {
  }

  /** The built-in schema lists its labels in order. */
  lemma DefaultSchemaLabels(full: bool)
    ensures Labels(DefaultSchema(full)) == Named(DefaultLabels(full))
  {
    var labels := DefaultLabels(full);
    forall i | 0 <= i < |labels|
      ensures Labels(DefaultSchema(full))[i] == Named(labels)[i]
    {
      DefaultEntryLabel(labels[i]);
    }
  }

  /** None of the labels `names` is in `labels`. */
  predicate NoneIn(names: seq<string>, labels: set<Yaml>) {
    forall i :: 0 <= i < |names| ==> YStr(names[i]) !in labels
  }

  /** Entries whose labels are all outside `labels` are none of them overridden. */
  lemma NamedNotOverridden(s: seq<SchemaEntry>, names: seq<string>, labels: set<Yaml>)
    requires Labels(s) == Named(names) && NoneIn(names, labels)
    ensures forall i :: 0 <= i < |s| ==> !Overridden(s[i], labels)
  {
    forall i | 0 <= i < |s|
      ensures !Overridden(s[i], labels)
    {
      assert LabelOf(s[i]) == Labels(s)[i];
    }
  }

  /**
   * A user schema that redefines the first two entries of a schema and none
   * of the others leaves the others in front of the user's entries.
   */
  lemma MergeRedefiningFirstTwo(d: seq<SchemaEntry>, rest: seq<string>, user: seq<SchemaEntry>)
    requires |d| >= 2 && Overridden(d[0], UserLabels(user)) && Overridden(d[1], UserLabels(user))
    requires Labels(d[2..]) == Named(rest) && NoneIn(rest, UserLabels(user))
    ensures Labels(MergeSchema(d, user)) == Named(rest) + Labels(user)
  {
    var labels := UserLabels(user);
    NamedNotOverridden(d[2..], rest, labels);
    KeepDefaultsAll(d[2..], labels);
    KeepTwoOverridden(d, labels);
    LabelsAppend(d[2..], user);
  }

  lemma KeepTwoOverridden(d: seq<SchemaEntry>, labels: set<Yaml>)
    requires |d| >= 2 && Overridden(d[0], labels) && Overridden(d[1], labels)
    ensures KeepDefaults(d, labels) == KeepDefaults(d[2..], labels)
  {
    assert d[1..][1..] == d[2..];
  }

  /** A user schema that redefines no label of a schema comes after the whole of it. */
  lemma MergeAddingOnly(d: seq<SchemaEntry>, names: seq<string>, user: seq<SchemaEntry>)
    requires Labels(d) == Named(names)
    requires NoneIn(names, UserLabels(user))
    ensures Labels(MergeSchema(d, user)) == Named(names) + Labels(user)
  {
    NamedNotOverridden(d, names, UserLabels(user));
    KeepDefaultsAll(d, UserLabels(user));
    LabelsAppend(d, user);
  }

  /** The labels of a schema named `[a, b] + rest`, taken apart. */
  lemma NamedParts(d: seq<SchemaEntry>, a: string, b: string, rest: seq<string>)
    requires Labels(d) == Named([a, b] + rest)
    ensures |d| >= 2 && LabelOf(d[0]) == Some(YStr(a)) && LabelOf(d[1]) == Some(YStr(b))
    ensures Labels(d[2..]) == Named(rest)
  {
    assert LabelOf(d[0]) == Labels(d)[0] && LabelOf(d[1]) == Labels(d)[1];
    assert Labels(d[2..]) == Labels(d)[2..];
  }

  /** A user schema redefining `summary` and `description` and adding `type`. */
  function OverridingUser(): seq<SchemaEntry> {
    [[("label", YStr("type"))],
     [("label", YStr("summary"))],
     [("label", YStr("description")), ("condition", YList([YStr("!="), YStr("type"), YStr("trivial")])),
      ("multiline", YBool(true)), ("required", YBool(false))]]
  }

  lemma OverridingUserLabels()
    ensures UserLabels(OverridingUser()) == {YStr("type"), YStr("summary"), YStr("description")}
    ensures Labels(OverridingUser()) == Named(["type", "summary", "description"])
  {
    var u := OverridingUser();
    UserLabelsCons(u[0], u[1..]);
    UserLabelsCons(u[1], u[2..]);
    UserLabelsCons(u[2], u[3..]);
  }

  lemma OverridingUserValid()
    ensures ValidUserSchema(OverridingUser())
  {
    var u := OverridingUser();
    assert EntryFault(u[2], 2).None?;
  }

  /** No git field is named `type`, `summary` or `description`. */
  lemma GitLabelsFresh(full: bool)
    ensures NoneIn(GitLabels(full), {YStr("type"), YStr("summary"), YStr("description")})
  {
  }

  lemma NamedAppend(a: seq<string>, b: seq<string>)
    ensures Named(a + b) == Named(a) + Named(b)
  {
  }

  /**
   * The redefined built-in entries move behind the git fields, in the
   * user's order.
   */
  lemma OverridingExample(full: bool)
    ensures ValidUserSchema(OverridingUser())
    ensures Labels(MergeSchema(DefaultSchema(full), OverridingUser()))
      == Named(GitLabels(full) + ["type", "summary", "description"])
  {
    var u := OverridingUser();
    OverridingUserValid();
    OverridingUserLabels();
    GitLabelsFresh(full);
    DefaultSchemaLabels(full);
    NamedParts(DefaultSchema(full), "summary", "description", GitLabels(full));
    MergeRedefiningFirstTwo(DefaultSchema(full), GitLabels(full), u);
    NamedAppend(GitLabels(full), ["type", "summary", "description"]);
  }

  /** A user schema adding only `type` keeps the whole built-in schema in front of it. */
  lemma AddingExample(full: bool)
    ensures ValidUserSchema([[("label", YStr("type"))]])
    ensures Labels(MergeSchema(DefaultSchema(full), [[("label", YStr("type"))]])) == Named(DefaultLabels(full) + ["type"])
  {
    var u := [[("label", YStr("type"))]];
    UserLabelsCons(u[0], u[1..]);
    DefaultSchemaLabels(full);
    MergeAddingOnly(DefaultSchema(full), DefaultLabels(full), u);
  }

  /** An entry without a label is refused. */
  lemma MissingLabelExample()
    ensures EntryFault([("invalid", YStr("type"))], 0) == Some(MissingLabel(0))
    ensures !ValidUserSchema([[("invalid", YStr("type"))]])
  {
    var bad := [[("invalid", YStr("type"))]];
    assert EntryFault(bad[0], 0).Some?;
  }

  /** A multi-line entry other than the description is refused. */
  lemma MultilineExample()
    ensures EntryFault([("label", YStr("stuff")), ("multiline", YBool(true))], 2) == Some(MultilineNotAllowed(2))
    ensures !ValidUserSchema([[("label", YStr("type"))], [("label", YStr("summary"))],
      [("label", YStr("stuff")), ("multiline", YBool(true))]])
  {
    var bad := [[("label", YStr("type"))], [("label", YStr("summary"))], [("label", YStr("stuff")), ("multiline", YBool(true))]];
    assert bad[2] == [("label", YStr("stuff")), ("multiline", YBool(true))];
    assert EntryFault(bad[2], 2).Some?;
  }
}
