/**
 * The commit message `tidy commit` writes from a validated schema entry:
 * the summary, a blank line, the description, a blank line, then one
 * `Key: value` trailer line per remaining field, the whole trimmed.
 * A field name such as `ticket_id` becomes a trailer key in title case.
 * `BuildMessage` writes keys as the source does, leaving the space that
 * stood for `_` in place; `BuildMessageIntended` joins the words with `-`.
 */
module Message {
  import opened Wrappers
  import opened Text
  import opened Format
  import opened Yaml

  /** A validated entry: field names and their string values, in schema order. */
  type Entry = seq<(string, string)>

  // ---------------------------------------------------------------------
  // Trailer keys
  // ---------------------------------------------------------------------

  /**
   * The key as the message builder writes it: `_` becomes a space, the
   * result is put in title case, then `_` becomes `-`, which no longer
   * occurs, and the ends are trimmed.
   */
  function TitleKeyAsWritten(k: string): string {
    Strip(Replace(Title(Replace(k, '_', ' ')), '_', '-'))
  }

  /** The key as evidently intended: the words of the field name in title case, joined by `-`. */
  function TitleKey(k: string): string {
    Strip(Replace(Title(Replace(k, '_', ' ')), ' ', '-'))
  }

  /** A schema field name: lower-case letters, digits and `_`. */
  predicate FieldName(k: string) {
    forall i :: 0 <= i < |k| ==> IsLower(k[i]) || IsDigit(k[i]) || k[i] == '_'
  }

  /** `k` is a field name whose first `_` is at `i`, neither first nor last, and which does not end in `_`. */
  predicate FirstInnerUnderscore(k: string, i: nat) {
    FieldName(k) && 0 < i < |k| - 1 && k[i] == '_' && k[|k| - 1] != '_'
    && forall j :: 0 <= j < i ==> k[j] != '_'
  }

  /**
   * The key the builder writes for a field name with an inner `_` keeps a
   * space where the `_` was: it is not a trailer key (the recogniser of the
   * description's trailer block refuses it) and it does not normalise back
   * to the field name.
   */
  lemma TitleKeyAsWrittenKeepsSpace(k: string, i: nat)
    requires FirstInnerUnderscore(k, i)
    ensures var t := TitleKeyAsWritten(k); |t| == |k| && t[i] == ' '
    ensures !IsKey(TitleKeyAsWritten(k))
    ensures NormalizeKey(TitleKeyAsWritten(k)) != k
  {
    AsWrittenChars(k, i);
    SpacedKey(TitleKeyAsWritten(k), i);
  }

  /** The characters of the key the builder writes: word characters up to a space at `i`. */
  lemma AsWrittenChars(k: string, i: nat)
    requires FirstInnerUnderscore(k, i)
    ensures var t := TitleKeyAsWritten(k);
      |t| == |k| && t[i] == ' ' && IsStripped(t) && forall j :: 0 <= j < i ==> IsWordChar(t[j])
  {
    var t := Replace(Title(Replace(k, '_', ' ')), '_', '-');
    forall j {:trigger t[j]} | 0 <= j < |t|
      ensures k[j] == '_' ==> t[j] == ' '
      ensures k[j] != '_' ==> IsWordChar(t[j])
    {
      AsWrittenAt(k, t, j);
    }
    WordEnds(t);
    StrippedFixpoint(t);
  }

  /** A trimmed text with word characters up to a space is no key, and normalising keeps the space. */
  lemma SpacedKey(t: string, i: nat)
    requires i < |t| && t[i] == ' ' && IsStripped(t) && forall j :: 0 <= j < i ==> IsWordChar(t[j])
    ensures !IsKey(t) && NormalizeKey(t)[i] == ' '
  {
    assert t == t[..i] + " " + t[i + 1..];
    SpaceEndsKey(KeyStart, t[..i], t[i + 1..]);
    StrippedFixpoint(t);
  }

  /** A text that starts and ends with word characters is trimmed. */
  lemma WordEnds(t: string)
    requires |t| > 0 && IsWordChar(t[0]) && IsWordChar(t[|t| - 1])
    ensures IsStripped(t)
  {
  }

  /** One character of the key the builder writes: a space for `_`, otherwise a word character. */
  lemma AsWrittenAt(k: string, t: string, j: nat)
    requires FieldName(k) && j < |k|
    requires t == Replace(Title(Replace(k, '_', ' ')), '_', '-')
    ensures k[j] == '_' ==> t[j] == ' '
    ensures k[j] != '_' ==> IsWordChar(t[j])
  {
    var u := Replace(k, '_', ' ');
    var w := Title(u);
    assert u[j] == if k[j] == '_' then ' ' else k[j];
    assert t[j] == if w[j] == '_' then '-' else w[j];
    TitleShape(u, j);
    if k[j] != '_' {
      assert IsWordChar(w[j]) && w[j] != '_';
    }
  }

  /**
   * The intended key normalises back to the field name whenever the name
   * has no upper-case letter, no `-` and no whitespace: the trailer read
   * back from the commit has the field's own name.
   */
  lemma TitleKeyRoundTrip(k: string)
    requires forall i :: 0 <= i < |k| ==> !IsUpper(k[i]) && k[i] != '-' && !IsSpace(k[i])
    ensures NormalizeKey(TitleKey(k)) == k
  {
    var t := Replace(Title(Replace(k, '_', ' ')), ' ', '-');
    IntendedChars(k);
    StrippedFixpoint(t);
    StrippedFixpoint(t);
  }

  /** The characters of the intended key, before trimming. */
  lemma IntendedChars(k: string)
    requires forall i :: 0 <= i < |k| ==> !IsUpper(k[i]) && k[i] != '-' && !IsSpace(k[i])
    ensures var t := Replace(Title(Replace(k, '_', ' ')), ' ', '-');
      |t| == |k| && forall j :: 0 <= j < |t| ==> !IsSpace(t[j]) && (if Lower(t[j]) == '-' then '_' else Lower(t[j])) == k[j]
  {
    var u := Replace(k, '_', ' ');
    var t := Replace(Title(u), ' ', '-');
    forall j | 0 <= j < |t|
      ensures !IsSpace(t[j])
      ensures (if Lower(t[j]) == '-' then '_' else Lower(t[j])) == k[j]
    {
      TitleShape(u, j);
    }
  }

  /**
   * A name made of words of lower-case letters and digits joined by
   * single `_`, starting with a letter and a second word character, gives
   * a key the trailer recogniser accepts.
   */
  lemma TitleKeyIsKey(k: string)
    requires DashableName(k)
    ensures IsKey(TitleKey(k))
  {
    var t := Replace(Title(Replace(k, '_', ' ')), ' ', '-');
    DashedChars(k);
    DashesOfUnderscores(k, t);
    TitleKeyOfTrimmed(k);
    DashedKey(t);
  }

  /** When the dashed title-case text is already trimmed, it is the key. */
  lemma TitleKeyOfTrimmed(k: string)
    requires IsStripped(Replace(Title(Replace(k, '_', ' ')), ' ', '-'))
    ensures TitleKey(k) == Replace(Title(Replace(k, '_', ' ')), ' ', '-')
  {
    StrippedFixpoint(Replace(Title(Replace(k, '_', ' ')), ' ', '-'));
  }

  /** An upper-case letter, a word character, then dashed words: a key. */
  lemma DashedKey(t: string)
    requires |t| >= 2 && IsUpper(t[0]) && IsWordChar(t[1]) && DashedWords(t)
    ensures IsKey(t)
  {
    DashedWordsSuffix(t, 2);
    RunDashedWords(t[2..]);
    KeyOfDashedWords(t);
  }

  lemma KeyOfDashedWords(t: string)
    requires |t| >= 2 && IsUpper(t[0]) && IsWordChar(t[1]) && Run(KeyBody, t[2..]) == KeyBody
    ensures IsKey(t)
  {
    assert Run(KeyStart, t) == Run(KeyHead, t[1..]);
    assert t[1..][1..] == t[2..];
    assert Run(KeyHead, t[1..]) == Run(KeyBody, t[2..]);
  }

  /** A field name has no upper-case letter, no `-` and no whitespace. */
  lemma FieldNameIsPlain(k: string)
    requires FieldName(k)
    ensures forall i :: 0 <= i < |k| ==> !IsUpper(k[i]) && k[i] != '-' && !IsSpace(k[i])
  {
    forall i | 0 <= i < |k|
      ensures !IsUpper(k[i]) && k[i] != '-' && !IsSpace(k[i])
    {
      assert IsLower(k[i]) || IsDigit(k[i]) || k[i] == '_';
    }
  }

  /** Words of lower-case letters and digits joined by single `_`, starting with a letter and one more word character. */
  predicate DashableName(k: string) {
    FieldName(k) && |k| >= 2 && IsLower(k[0]) && k[1] != '_' && k[|k| - 1] != '_'
    && forall i, j :: 0 <= i < |k| && 0 <= j < |k| && j == i + 1 ==> !(k[i] == '_' && k[j] == '_')
  }

  /** Words of word characters joined by single `-`, not ending in `-`. */
  predicate DashedWords(s: string) {
    (forall i :: 0 <= i < |s| ==> IsWordChar(s[i]) || s[i] == '-')
    && (forall i, j :: 0 <= i < |s| && 0 <= j < |s| && j == i + 1 ==> !(s[i] == '-' && s[j] == '-'))
    && (|s| > 0 ==> s[|s| - 1] != '-')
  }

  lemma DashedWordsSuffix(s: string, n: nat)
    requires DashedWords(s) && n <= |s|
    ensures DashedWords(s[n..])
  {
    var r := s[n..];
    assert forall i :: 0 <= i < |r| ==> r[i] == s[n + i];
  }

  /** The intended key of such a name, before trimming: an upper-case letter first, `-` exactly where the name has `_`, word characters elsewhere. */
  lemma DashedChars(k: string)
    requires DashableName(k)
    ensures var t := Replace(Title(Replace(k, '_', ' ')), ' ', '-');
      |t| == |k| && IsUpper(t[0])
      && forall j :: 0 <= j < |t| ==> (t[j] == '-' <==> k[j] == '_') && (t[j] != '-' ==> IsWordChar(t[j]))
  {
    var u := Replace(k, '_', ' ');
    var t := Replace(Title(u), ' ', '-');
    forall j | 0 <= j < |t|
      ensures t[j] == '-' <==> k[j] == '_'
      ensures t[j] != '-' ==> IsWordChar(t[j])
      ensures j == 0 ==> IsUpper(t[j])
    {
      TitleShape(u, j);
    }
  }

  /** A text with `-` exactly where the name has `_` and word characters elsewhere is trimmed and made of dashed words. */
  lemma DashesOfUnderscores(k: string, t: string)
    requires DashableName(k) && |t| == |k|
    requires forall j :: 0 <= j < |t| ==> (t[j] == '-' <==> k[j] == '_') && (t[j] != '-' ==> IsWordChar(t[j]))
    ensures IsWordChar(t[1]) && IsStripped(t) && DashedWords(t)
  {
    assert t[|t| - 1] != '-' && IsWordChar(t[|t| - 1]);
    assert t[0] != '-' && IsWordChar(t[0]);
  }

  /** Words joined by single `-`, not ending in `-`, keep the recogniser inside a key body. */
  lemma {:induction false} RunDashedWords(s: string)
    requires DashedWords(s)
    ensures Run(KeyBody, s) == KeyBody
    decreases |s|
  {
    if |s| > 0 {
      if s[0] == '-' {
        assert s[1] != '-';
        DashedWordsSuffix(s, 2);
        assert s[1..][1..] == s[2..];
        RunDashedWords(s[2..]);
      } else {
        DashedWordsSuffix(s, 1);
        RunDashedWords(s[1..]);
      }
    }
  }

  // ---------------------------------------------------------------------
  // The message
  // ---------------------------------------------------------------------

  /** Every field other than the summary and the description becomes a trailer line. */
  predicate IsTrailerField(k: string) {
    k != Summary && k != Description
  }

  const Summary: string := "summary"
  const Description: string := "description"

  /** A paragraph: the trimmed text and a blank line, or nothing when the field is absent. */
  function Paragraph(v: Option<string>): string {
    match v
    case Some(s) => Strip(s) + "\n\n"
    case None => ""
  }

  /** The summary paragraph, then the description paragraph. */
  function Head(entry: Entry): string {
    Paragraph(Lookup(entry, Summary)) + Paragraph(Lookup(entry, Description))
  }

  /** A trailer line `Key: value`, the key written from the field name by `key`. */
  function TrailerLine(k: string, v: string, key: string -> string): string {
    key(k) + ": " + Strip(v) + "\n"
  }

  /** What one field adds: its trailer line, or nothing. */
  function FieldText(e: (string, string), key: string -> string): string {
    if IsTrailerField(e.0) then TrailerLine(e.0, e.1, key) else ""
  }

  /** What each field of `entry` adds, in order. */
  function Lines(entry: Entry, key: string -> string): (r: seq<string>)
    ensures |r| == |entry| && forall i :: 0 <= i < |entry| ==> r[i] == FieldText(entry[i], key)
  {
    seq(|entry|, i requires 0 <= i < |entry| => FieldText(entry[i], key))
  }

  /** The texts of `ls` one after the other. */
  function Concat(ls: seq<string>): string {
    if |ls| == 0 then "" else Concat(ls[..|ls| - 1]) + ls[|ls| - 1]
  }

  /** The message: the paragraphs and the trailer lines, trimmed. */
  function MessageText(entry: Entry, key: string -> string): string {
    Strip(Head(entry) + Concat(Lines(entry, key)))
  }

  lemma {:induction false} ConcatAppend(a: seq<string>, b: seq<string>)
    ensures Concat(a + b) == Concat(a) + Concat(b)
    decreases |b|
  {
    if |b| > 0 {
      var b' := b[..|b| - 1];
      assert (a + b)[..|a + b| - 1] == a + b';
      ConcatAppend(a, b');
    } else {
      assert a + b == a;
    }
  }

  /** The texts of `ls` around its element `i`. */
  lemma ConcatSplit(ls: seq<string>, i: nat)
    requires i < |ls|
    ensures Concat(ls) == Concat(ls[..i]) + ls[i] + Concat(ls[i + 1..])
  {
    ConcatTakeDrop(ls, i + 1);
    ConcatStep(ls, i);
  }

  /** The texts of the first `n` elements, then those of the rest. */
  lemma ConcatTakeDrop(ls: seq<string>, n: nat)
    requires n <= |ls|
    ensures Concat(ls) == Concat(ls[..n]) + Concat(ls[n..])
  {
    ConcatJoin(ls[..n], ls[n..], ls);
  }

  lemma ConcatJoin(a: seq<string>, b: seq<string>, ls: seq<string>)
    requires ls == a + b
    ensures Concat(ls) == Concat(a) + Concat(b)
  {
    ConcatAppend(a, b);
  }

  /**
   * Each field's text sits in the place of the field: the texts of the
   * fields before it, its own (its trailer line, or nothing for the
   * summary and the description), then the texts of the fields after it.
   */
  lemma TrailerLineAt(entry: Entry, key: string -> string, i: nat)
    requires i < |entry|
    ensures Concat(Lines(entry, key))
      == Concat(Lines(entry[..i], key)) + FieldText(entry[i], key) + Concat(Lines(entry[i + 1..], key))
  {
    var ls := Lines(entry, key);
    ConcatSplit(ls, i);
    assert ls[..i] == Lines(entry[..i], key);
    assert ls[i + 1..] == Lines(entry[i + 1..], key);
  }

  /**
   * The message as written: a field whose name has an inner `_` gets a
   * line whose key keeps a space, so it is not read back as a trailer,
   * and its key does not normalise back to the field name.
   */
  lemma AsWrittenTrailerLine(entry: Entry, i: nat, j: nat)
    requires i < |entry| && IsTrailerField(entry[i].0) && FirstInnerUnderscore(entry[i].0, j)
    ensures Concat(Lines(entry, TitleKeyAsWritten))
      == Concat(Lines(entry[..i], TitleKeyAsWritten)) + TrailerLine(entry[i].0, entry[i].1, TitleKeyAsWritten)
         + Concat(Lines(entry[i + 1..], TitleKeyAsWritten))
    ensures |TitleKeyAsWritten(entry[i].0)| == |entry[i].0| && TitleKeyAsWritten(entry[i].0)[j] == ' '
    ensures !IsKey(TitleKeyAsWritten(entry[i].0))
    ensures NormalizeKey(TitleKeyAsWritten(entry[i].0)) != entry[i].0
  {
    TrailerLineAt(entry, TitleKeyAsWritten, i);
    TitleKeyAsWrittenKeepsSpace(entry[i].0, j);
  }

  /**
   * The message as intended: the same field gets a line whose key is a
   * trailer key and normalises back to the field name.
   */
  lemma IntendedTrailerLine(entry: Entry, i: nat)
    requires i < |entry| && IsTrailerField(entry[i].0) && DashableName(entry[i].0)
    ensures Concat(Lines(entry, TitleKey))
      == Concat(Lines(entry[..i], TitleKey)) + TrailerLine(entry[i].0, entry[i].1, TitleKey)
         + Concat(Lines(entry[i + 1..], TitleKey))
    ensures IsKey(TitleKey(entry[i].0)) && NormalizeKey(TitleKey(entry[i].0)) == entry[i].0
  {
    TrailerLineAt(entry, TitleKey, i);
    IntendedKey(entry[i].0);
  }

  /** The intended key of such a name is a trailer key that normalises back to the name. */
  lemma IntendedKey(k: string)
    requires DashableName(k)
    ensures IsKey(TitleKey(k)) && NormalizeKey(TitleKey(k)) == k
  {
    TitleKeyIsKey(k);
    FieldNameIsPlain(k);
    TitleKeyRoundTrip(k);
  }

  /** A text that does not start with whitespace keeps its start through `Strip`. */
  lemma StripKeepsStart(a: string, b: string)
    requires |a| > 0 && IsStripped(a)
    ensures |Strip(a + b)| >= |a| && Strip(a + b)[..|a|] == a
  {
    var s := a + b;
    assert s[0] == a[0];
    assert StripLeft(s) == s;
    var r := StripRight(s);
    assert s[|a| - 1] == a[|a| - 1];
    assert r[..|a|] == s[..|a|];
  }

  /** A message whose summary is not blank starts with the trimmed summary. */
  lemma MessageStartsWithSummary(entry: Entry, key: string -> string, s: string)
    requires Lookup(entry, Summary) == Some(s) && |Strip(s)| > 0
    ensures |MessageText(entry, key)| >= |Strip(s)| && MessageText(entry, key)[..|Strip(s)|] == Strip(s)
  {
    var p, d, t := Strip(s), Paragraph(Lookup(entry, Description)), Concat(Lines(entry, key));
    Assoc3(p + "\n\n", d, t);
    Assoc3(p, "\n\n", d + t);
    StripKeepsStart(p, "\n\n" + (d + t));
  }

  /** `tidy commit`'s message building, with the trailer keys as the code writes them. */
  method BuildMessage(entry: Entry) returns (msg: string)
    ensures msg == MessageText(entry, TitleKeyAsWritten)
  {
    msg := Compose(entry, TitleKeyAsWritten);
  }

  /** The message building as intended: trailer keys joined by `-`. */
  method BuildMessageIntended(entry: Entry) returns (msg: string)
    ensures msg == MessageText(entry, TitleKey)
  {
    msg := Compose(entry, TitleKey);
  }

  /** The paragraphs, then the trailer lines with keys written by `key`, trimmed. */
  method Compose(entry: Entry, key: string -> string) returns (msg: string)
    ensures msg == MessageText(entry, key)
  {
    var text := "";
    var summary := Lookup(entry, Summary);
    if summary.Some? {
      text := text + (Strip(summary.value) + "\n\n");
    }
    Unit(Paragraph(summary));
    var description := Lookup(entry, Description);
    if description.Some? {
      text := text + (Strip(description.value) + "\n\n");
    }
    Unit(text);
    assert text == Head(entry);
    text := AppendTrailers(text, entry, key);
    msg := Strip(text);
  }

  /** The loop over the entry's fields: each trailer field appends its line to `text`. */
  method AppendTrailers(text: string, entry: Entry, key: string -> string) returns (r: string)
    ensures r == text + Concat(Lines(entry, key))
  {
    var ls := Lines(entry, key);
    r := text;
    Unit(text);
    var i := 0;
    while i < |entry|
      invariant 0 <= i <= |entry|
      invariant r == text + Concat(ls[..i])
    {
      var (k, v) := entry[i];
      ConcatStep(ls, i);
      Assoc3(text, Concat(ls[..i]), ls[i]);
      if IsTrailerField(k) {
        r := r + (key(k) + ": " + Strip(v) + "\n");
      } else {
        Unit(Concat(ls[..i]));
      }
      i := i + 1;
    }
    assert ls[..i] == ls;
  }

  /** The empty text is a unit of concatenation. */
  lemma Unit(s: string)
    ensures "" + s == s && s + "" == s
  {
  }

  lemma ConcatStep(ls: seq<string>, i: nat)
    requires i < |ls|
    ensures Concat(ls[..i + 1]) == Concat(ls[..i]) + ls[i]
  {
    assert ls[..i + 1][..i] == ls[..i];
  }
}
