/**
 * Normalising the attributes of a commit after its YAML is decoded
 * (`_format_commit_attr`): trailers become one flat mapping with
 * normalised keys, the description loses its trailing block of
 * `Key: value` trailer lines, and every other string is trimmed.
 */
module Format {
  import opened Wrappers
  import opened Errors
  import opened Text
  import opened Yaml

  // ---------------------------------------------------------------------
  // Trailers
  // ---------------------------------------------------------------------

  /** A trailer key as stored: trimmed, lower-cased, `-` turned into `_`. */
  function NormalizeKey(k: string): string {
    Replace(LowerStr(Strip(k)), '-', '_')
  }

  /** A normalised key is trimmed and has neither `-` nor upper-case letters. */
  lemma NormalizeKeyShape(k: string)
    ensures var r := NormalizeKey(k);
      IsStripped(r) && forall i :: 0 <= i < |r| ==> r[i] != '-' && !IsUpper(r[i])
  {
    var t := Strip(k);
    var r := NormalizeKey(k);
    if |r| > 0 {
      assert r[0] == (var n := Lower(t[0]); if n == '-' then '_' else n);
      assert r[|r| - 1] == (var n := Lower(t[|t| - 1]); if n == '-' then '_' else n);
      NormalizeCharSpace(t[0]);
      NormalizeCharSpace(t[|t| - 1]);
    }
  }

  /** Lower-casing and turning `-` into `_` neither makes nor removes whitespace. */
  lemma NormalizeCharSpace(c: char)
    ensures var n := Lower(c); IsSpace(if n == '-' then '_' else n) == IsSpace(c)
  {
  }

  /** Normalising a normalised key changes nothing. */
  lemma NormalizeKeyIdempotent(k: string)
    ensures NormalizeKey(NormalizeKey(k)) == NormalizeKey(k)
  {
    var n := NormalizeKey(k);
    NormalizeKeyShape(k);
    StrippedFixpoint(n);
    LowerStrFixpoint(n);
    ReplaceAbsent(n, '-', '_');
  }

  /** Every value of a trailer mapping is a string. */
  predicate StringValues(entries: Mapping) {
    forall i :: 0 <= i < |entries| ==> entries[i].1.YStr?
  }

  /**
   * The key/value pairs of every trailer mapping, in order. An item that
   * is not a mapping has no `items`; a value that is not a string has no
   * `strip`; the first offending item decides which.
   */
  function TrailerEntries(items: seq<Yaml>): (r: Result<Mapping, Error>)
    ensures r.Ok? <==> forall i :: 0 <= i < |items| ==> items[i].YMap? && StringValues(items[i].entries)
    ensures r.Ok? ==> StringValues(r.value)
    ensures r.Err? ==> r.error == AttributeError("items") || r.error == AttributeError("strip")
  {
    if |items| == 0 then Ok([])
    else if !items[0].YMap? then Err(AttributeError("items"))
    else if !StringValues(items[0].entries) then Err(AttributeError("strip"))
    else
      var rest := TrailerEntries(items[1..]);
      assert forall i :: 1 <= i < |items| ==> items[i] == items[1..][i - 1];
      if rest.Err? then rest
      else
        var e := items[0].entries;
        assert forall i :: |e| <= i < |e| + |rest.value| ==> (e + rest.value)[i] == rest.value[i - |e|];
        Ok(e + rest.value)
  }

  /** Reading the trailers of two lists one after the other reads the pairs of both, in order. */
  lemma {:induction false} TrailerEntriesAppend(a: seq<Yaml>, b: seq<Yaml>)
    requires TrailerEntries(a).Ok? && TrailerEntries(b).Ok?
    ensures TrailerEntries(a + b) == Ok(TrailerEntries(a).value + TrailerEntries(b).value)
  {
    if |a| > 0 {
      assert (a + b)[1..] == a[1..] + b;
      TrailerEntriesAppend(a[1..], b);
      var e := a[0].entries;
      assert e + (TrailerEntries(a[1..]).value + TrailerEntries(b).value)
        == (e + TrailerEntries(a[1..]).value) + TrailerEntries(b).value;
    } else {
      assert a + b == b;
      assert [] + TrailerEntries(b).value == TrailerEntries(b).value;
    }
  }

  /** Every pair of every mapping is read: it sits at some place of the pairs read. */
  lemma {:induction false} TrailerEntryRead(items: seq<Yaml>, i: nat, j: nat)
    requires TrailerEntries(items).Ok? && i < |items| && j < |items[i].entries|
    ensures exists n :: 0 <= n < |TrailerEntries(items).value| && TrailerEntries(items).value[n] == items[i].entries[j]
  {
    var e := items[0].entries;
    var rest := TrailerEntries(items[1..]).value;
    assert TrailerEntries(items).value == e + rest;
    if i == 0 {
      assert TrailerEntries(items).value[j] == e[j];
    } else {
      assert items[1..][i - 1] == items[i];
      TrailerEntryRead(items[1..], i - 1, j);
      var n :| 0 <= n < |rest| && rest[n] == items[i].entries[j];
      assert TrailerEntries(items).value[|e| + n] == rest[n];
    }
  }

  /** Every pair read comes from one of the mappings. */
  lemma {:induction false} TrailerEntryFromItem(items: seq<Yaml>, n: nat)
    requires TrailerEntries(items).Ok? && n < |TrailerEntries(items).value|
    ensures exists i, j :: (0 <= i < |items| && items[i].YMap? && 0 <= j < |items[i].entries|
      && TrailerEntries(items).value[n] == items[i].entries[j])
  {
    var e := items[0].entries;
    var rest := TrailerEntries(items[1..]).value;
    assert TrailerEntries(items).value == e + rest;
    if n < |e| {
      assert TrailerEntries(items).value[n] == items[0].entries[n];
    } else {
      TrailerEntryFromItem(items[1..], n - |e|);
      var i, j :| (0 <= i < |items[1..]| && items[1..][i].YMap? && 0 <= j < |items[1..][i].entries|
        && rest[n - |e|] == items[1..][i].entries[j]);
      assert items[1..][i] == items[i + 1];
    }
  }

  /** The pairs of the trailers, key normalised and value trimmed, in order. */
  function TrailerPairs(entries: Mapping): (r: seq<(string, Yaml)>)
    requires StringValues(entries)
    ensures |r| == |entries|
  {
    if |entries| == 0 then []
    else [(NormalizeKey(entries[0].0), YStr(Strip(entries[0].1.s)))] + TrailerPairs(entries[1..])
  }

  /** Each pair is its entry with the key normalised and the value trimmed. */
  lemma {:induction false} TrailerPairsAt(entries: Mapping, i: nat)
    requires StringValues(entries) && i < |entries|
    ensures TrailerPairs(entries)[i] == (NormalizeKey(entries[i].0), YStr(Strip(entries[i].1.s)))
  {
    if i > 0 {
      TrailerPairsAt(entries[1..], i - 1);
    }
  }

  /**
   * The `trailers` attribute: a list of one-pair mappings becomes one
   * mapping; for a key given twice the later value wins. Iterating a
   * mapping or a string yields strings, which have no `items` (so only an
   * empty one passes); other scalars cannot be iterated.
   */
  function FormatTrailers(value: Yaml): (r: Result<Mapping, Error>)
    ensures r.Ok? ==> UniqueKeys(r.value)
  {
    var entries := match value
      case YList(items) => TrailerEntries(items)
      case YMap(entries) => if |entries| == 0 then Ok([]) else Err(AttributeError("items"))
      case YStr(s) => if |s| == 0 then Ok([]) else Err(AttributeError("items"))
      case _ => Err(TypeError);
    if entries.Err? then Err(entries.error)
    else
      var pairs := TrailerPairs(entries.value);
      PutAllUnique([], pairs);
      Ok(PutAll([], pairs))
  }

  /**
   * A trailer key of the formatted mapping holds the trimmed value of the
   * last pair whose key normalises to it.
   */
  lemma TrailersLastWins(items: seq<Yaml>, k: string)
    requires TrailerEntries(items).Ok?
    ensures var ps := TrailerPairs(TrailerEntries(items).value);
      Lookup(FormatTrailers(YList(items)).value, k) == LastValue(ps, k)
  {
    ListTrailers(items);
    PutAllLookup([], TrailerPairs(TrailerEntries(items).value), k);
  }

  /** Every key of the formatted trailers is the normalised key of some trailer. */
  lemma TrailerKeysNormalized(items: seq<Yaml>, k: string)
    requires TrailerEntries(items).Ok?
    requires LastValue(TrailerPairs(TrailerEntries(items).value), k).Some?
    ensures exists i, j :: (0 <= i < |items| && items[i].YMap? && 0 <= j < |items[i].entries|
      && k == NormalizeKey(items[i].entries[j].0))
  {
    var raw := TrailerEntries(items).value;
    var ps := TrailerPairs(raw);
    var v := LastValue(ps, k).value;
    assert (k, v) in ps;
    var n :| 0 <= n < |ps| && ps[n] == (k, v);
    TrailerPairsAt(raw, n);
    TrailerEntryFromItem(items, n);
  }

  /** Every trailer given keeps its normalised key in the formatted mapping. */
  lemma TrailerKeyKept(items: seq<Yaml>, i: nat, j: nat)
    requires TrailerEntries(items).Ok? && i < |items| && j < |items[i].entries|
    ensures Lookup(FormatTrailers(YList(items)).value, NormalizeKey(items[i].entries[j].0)).Some?
  {
    var raw := TrailerEntries(items).value;
    var k := NormalizeKey(items[i].entries[j].0);
    TrailerEntryRead(items, i, j);
    var n :| 0 <= n < |raw| && raw[n] == items[i].entries[j];
    TrailerPairsAt(raw, n);
    LastValueFound(TrailerPairs(raw), k, n);
    TrailersLastWins(items, k);
  }

  /** A key that occurs in a pair list has a last value. */
  lemma {:induction false} LastValueFound(ps: seq<(string, Yaml)>, k: string, n: nat)
    requires n < |ps| && ps[n].0 == k
    ensures LastValue(ps, k).Some?
  {
    if n < |ps| - 1 && ps[|ps| - 1].0 != k {
      LastValueFound(ps[..|ps| - 1], k, n);
    }
  }

  // ---------------------------------------------------------------------
  // The trailer block at the end of a description
  // ---------------------------------------------------------------------

  /**
   * States of a deterministic recogniser for one or more trailer items
   * `Key:value`, as the pattern
   *   ((^|\n)[A-Z]\w+(-\w+)*:[^\n]*(\n\s+[^\n]*)*)+$
   * reads them once the leading `^` or line feed is consumed. A key is an
   * upper-case letter, one or more word characters, then groups of `-`
   * and word characters. A value runs to the end of its line and over
   * every following line feed that is followed by whitespace; as `\s`
   * includes the line feed, a blank line continues the value too, and
   * whatever follows it on the next line is part of the value.
   */
  datatype Scan =
    | KeyStart    // expecting the upper-case first letter of a key
    | KeyHead     // after the first letter: a word character must follow
    | KeyBody     // inside the key: word characters, `-`, or the `:` ending it
    | KeyDash     // after a `-` in the key: a word character must follow
    | InValue     // inside a value line
    | AfterBreak  // just after a line feed ending a value line
    | InIndent    // inside the whitespace that continues a value
    | Dead        // no trailer block can continue from here

  function Step(q: Scan, c: char): Scan {
    match q
    case KeyStart => if IsUpper(c) then KeyHead else Dead
    case KeyHead => if IsWordChar(c) then KeyBody else Dead
    case KeyBody => if IsWordChar(c) then KeyBody else if c == '-' then KeyDash else if c == ':' then InValue else Dead
    case KeyDash => if IsWordChar(c) then KeyBody else Dead
    case InValue => if c == '\n' then AfterBreak else InValue
    case AfterBreak => if IsUpper(c) then KeyHead else if IsSpace(c) then InIndent else Dead
    case InIndent => if IsSpace(c) then InIndent else InValue
    case Dead => Dead
  }

  function Run(q: Scan, s: string): Scan
    decreases |s|
  {
    if |s| == 0 then q else Run(Step(q, s[0]), s[1..])
  }

  /**
   * The states in which the block may end: inside a value, or right after
   * a line feed, which `$` allows as the last character of the text.
   */
  predicate Accepting(q: Scan) {
    q == InValue || q == AfterBreak || q == InIndent
  }

  /** `t` is a trailer block that runs to the end of the text. */
  predicate Block(t: string) {
    Accepting(Run(KeyStart, t))
  }

  /** A trailer block starts at `p`: at the very start, or at a line feed. */
  predicate BlockAt(s: string, p: nat)
    requires p <= |s|
  {
    (p == 0 && Block(s)) || (p < |s| && s[p] == '\n' && Block(s[p + 1..]))
  }

  /** `re.search`: the first position from `p` on at which a trailer block starts. */
  function SearchFrom(s: string, p: nat): (r: Option<nat>)
    requires p <= |s|
    ensures r.Some? ==> p <= r.value <= |s| && BlockAt(s, r.value)
    ensures r.Some? ==> forall q :: p <= q < r.value ==> !BlockAt(s, q)
    ensures r.None? ==> forall q :: p <= q <= |s| ==> !BlockAt(s, q)
    decreases |s| - p
  {
    if BlockAt(s, p) then Some(p)
    else if p == |s| then None
    else SearchFrom(s, p + 1)
  }

  /** The `description` attribute: cut at the first trailer block, then trimmed. */
  function FormatDescription(s: string): string {
    var cut := SearchFrom(s, 0);
    var v := if cut.Some? then Strip(s[..cut.value]) else s;
    Strip(v)
  }

  /**
   * What is kept of a description is the trimmed text before the earliest
   * place a trailer block starts, or the whole trimmed text when none does.
   */
  lemma DescriptionKeepsHead(s: string)
    ensures var r := FormatDescription(s);
      IsStripped(r)
      && exists p :: 0 <= p <= |s| && r == Strip(s[..p])
           && (p < |s| ==> BlockAt(s, p))
           && forall q :: 0 <= q < p ==> !BlockAt(s, q)
  {
    var cut := SearchFrom(s, 0);
    if cut.Some? {
      StripIdempotent(s[..cut.value]);
    } else {
      StripIdempotent(s);
      assert s[..|s|] == s;
    }
  }

  lemma {:induction false} RunAppend(q: Scan, a: string, b: string)
    ensures Run(q, a + b) == Run(Run(q, a), b)
    decreases |a|
  {
    if |a| == 0 {
      assert a + b == b;
    } else {
      assert (a + b)[1..] == a[1..] + b;
      RunAppend(Step(q, a[0]), a[1..], b);
    }
  }

  lemma {:induction false} RunDead(s: string)
    ensures Run(Dead, s) == Dead
  {
    if |s| > 0 {
      RunDead(s[1..]);
    }
  }

  /** A trailer key: what takes the recogniser from `KeyStart` to `KeyBody`. */
  predicate IsKey(k: string) {
    Run(KeyStart, k) == KeyBody
  }

  /** No line feed in `s`. */
  predicate OneLine(s: string) {
    forall i :: 0 <= i < |s| ==> s[i] != '\n'
  }

  lemma {:induction false} RunInValue(s: string)
    requires OneLine(s)
    ensures Run(InValue, s) == InValue
  {
    if |s| > 0 {
      RunInValue(s[1..]);
    }
  }

  /** `Key:value` on one line is a trailer block. */
  lemma KeyLineIsBlock(k: string, v: string)
    requires IsKey(k) && OneLine(v)
    ensures Block(k + ":" + v)
  {
    assert k + ":" + v == k + (":" + v);
    RunAppend(KeyStart, k, ":" + v);
    assert (":" + v)[1..] == v;
    RunInValue(v);
  }

  /**
   * A blank line does not end a trailer: after `Key:value`, a blank line
   * and then any line of text, the block still runs to the end.
   */
  lemma BlankLineContinuesTrailer(k: string, v: string, w: string)
    requires IsKey(k) && OneLine(v) && OneLine(w)
    ensures Block(k + ":" + v + "\n\n" + w)
  {
    var line := k + ":" + v;
    KeyLineIsBlock(k, v);
    assert k + ":" + v + "\n\n" + w == line + ("\n\n" + w);
    RunAppend(KeyStart, line, "\n\n" + w);
    assert Run(KeyStart, line) == InValue by {
      assert line == k + (":" + v);
      RunAppend(KeyStart, k, ":" + v);
      assert (":" + v)[1..] == v;
      RunInValue(v);
    }
    assert ("\n\n" + w)[1..][1..] == w;
    RunIndentThenLine(w);
  }

  lemma RunIndentThenLine(w: string)
    requires OneLine(w)
    ensures Accepting(Run(InIndent, w))
  {
    if |w| > 0 {
      if IsSpace(w[0]) {
        RunIndentThenLine(w[1..]);
      } else {
        RunInValue(w[1..]);
      }
    }
  }

  /** A key never contains a space: from inside a key, text without `:` and then a space kills the recogniser. */
  lemma SpaceEndsKey(q: Scan, a: string, b: string)
    requires q == KeyStart || q == KeyHead || q == KeyBody || q == KeyDash
    requires NoColon(a)
    ensures Run(q, a + " " + b) == Dead
  {
    NoColonStaysInKey(q, a);
    assert a + " " + b == a + ([' '] + b);
    RunAppend(q, a, [' '] + b);
    assert ([' '] + b)[1..] == b;
    RunDead(b);
  }

  /** No `:` in `s`. */
  predicate NoColon(s: string) {
    forall i :: 0 <= i < |s| ==> s[i] != ':'
  }

  // ---------------------------------------------------------------------
  // One attribute
  // ---------------------------------------------------------------------

  /**
   * `_format_commit_attr(key, value)`: trailers are formatted as above; a
   * description is cut at its trailer block (searching a value that is not
   * a string raises `TypeError`); every other string is trimmed and every
   * other value passes unchanged.
   */
  function FormatAttr(key: string, value: Yaml): (r: Result<Yaml, Error>)
    ensures key == "trailers" ==> r.Ok? ==> r.value.YMap? && UniqueKeys(r.value.entries)
    ensures key != "trailers" && key != "description" ==> r.Ok?
    ensures key != "trailers" && !value.YStr? ==> r == (if key == "description" then Err(TypeError) else Ok(value))
    ensures key != "trailers" && value.YStr? ==> r.Ok? && r.value.YStr? && IsStripped(r.value.s)
  {
    if key == "trailers" then
      var t := FormatTrailers(value);
      if t.Err? then Err(t.error) else Ok(YMap(t.value))
    else if key == "description" then
      if value.YStr? then
        DescriptionKeepsHead(value.s);
        Ok(YStr(FormatDescription(value.s)))
      else Err(TypeError)
    else if value.YStr? then Ok(YStr(Strip(value.s)))
    else Ok(value)
  }

  /** A string attribute other than trailers and description is trimmed, and trimming again changes nothing. */
  lemma FormatAttrIdempotent(key: string, s: string)
    requires key != "trailers" && key != "description"
    ensures FormatAttr(key, YStr(s)) == Ok(YStr(Strip(s)))
    ensures FormatAttr(key, FormatAttr(key, YStr(s)).value) == FormatAttr(key, YStr(s))
  {
    StripIdempotent(s);
  }

  // ---------------------------------------------------------------------
  // Examples
  // ---------------------------------------------------------------------

  /**
   * Two single-trailer mappings: both trailers are kept in order, unless
   * their keys normalise to the same key, which then holds the second value.
   */
  lemma TwoTrailers(k1: string, v1: string, k2: string, v2: string)
    ensures var n1, n2 := NormalizeKey(k1), NormalizeKey(k2);
      FormatTrailers(YList([YMap([(k1, YStr(v1))]), YMap([(k2, YStr(v2))])]))
      == Ok(if n1 == n2 then [(n1, YStr(Strip(v2)))] else [(n1, YStr(Strip(v1))), (n2, YStr(Strip(v2)))])
  {
    var one, two := [(k1, YStr(v1))], [(k2, YStr(v2))];
    var p1, p2 := (NormalizeKey(k1), YStr(Strip(v1))), (NormalizeKey(k2), YStr(Strip(v2)));
    TwoEntries(one, two);
    ListTrailers([YMap(one), YMap(two)]);
    TwoPairs(k1, v1, k2, v2);
    PutTwo(p1, p2);
  }

  /** A list of trailer mappings that reads without error: its pairs, put one after another. */
  lemma ListTrailers(items: seq<Yaml>)
    requires TrailerEntries(items).Ok?
    ensures FormatTrailers(YList(items)) == Ok(PutAll([], TrailerPairs(TrailerEntries(items).value)))
  {
  }

  lemma TwoEntries(one: Mapping, two: Mapping)
    requires StringValues(one) && StringValues(two)
    ensures TrailerEntries([YMap(one), YMap(two)]) == Ok(one + two)
  {
    var items := [YMap(one), YMap(two)];
    assert items[1..] == [YMap(two)];
    assert TrailerEntries(items[1..]) == Ok(two) by {
      assert [YMap(two)][1..] == [];
      assert two + [] == two;
    }
  }

  lemma PutTwo(p1: (string, Yaml), p2: (string, Yaml))
    ensures PutAll([], [p1, p2]) == if p1.0 == p2.0 then [p2] else [p1, p2]
  {
    var ps: seq<(string, Yaml)> := [p1, p2];
    assert ps[..1] == [p1];
    assert ps[..1][..0] == [];
    assert PutAll([], [p1]) == [p1];
    assert PutAll([], [p1, p2]) == Put([p1], p2.0, p2.1);
    if p1.0 == p2.0 {
      assert Put([p1], p2.0, p2.1) == [p2] + [p1][1..];
    } else {
      assert Put([p1], p2.0, p2.1) == [p1] + Put([], p2.0, p2.1);
    }
  }

  lemma TwoPairs(k1: string, v1: string, k2: string, v2: string)
    ensures TrailerPairs([(k1, YStr(v1)), (k2, YStr(v2))])
      == [(NormalizeKey(k1), YStr(Strip(v1))), (NormalizeKey(k2), YStr(Strip(v2)))]
  {
    var raw := [(k1, YStr(v1)), (k2, YStr(v2))];
    var p1, p2 := (NormalizeKey(k1), YStr(Strip(v1))), (NormalizeKey(k2), YStr(Strip(v2)));
    assert raw[1..] == [(k2, YStr(v2))];
    assert raw[1..][1..] == [];
    assert TrailerPairs(raw[1..]) == [p2] + TrailerPairs(raw[1..][1..]);
    assert TrailerPairs(raw) == [p1] + TrailerPairs(raw[1..]);
  }

  /** Stripping ignores one more whitespace character at the end. */
  lemma StripSpaceEnd(x: string, c: char)
    requires IsSpace(c)
    ensures Strip(x + [c]) == Strip(x)
  {
    StripLeftSpaceEnd(x, c);
    var l := StripLeft(x);
    if |l| > 0 {
      assert (l + [c])[..|l|] == l;
    }
  }

  lemma {:induction false} StripLeftSpaceEnd(x: string, c: char)
    requires IsSpace(c)
    ensures StripLeft(x + [c]) == if |StripLeft(x)| > 0 then StripLeft(x) + [c] else []
  {
    if |x| == 0 {
      assert StripLeft([c]) == StripLeft([]);
    } else {
      assert (x + [c])[1..] == x[1..] + [c];
      if IsSpace(x[0]) {
        StripLeftSpaceEnd(x[1..], c);
      }
    }
  }

  /** From a state inside a key, text without `:` never reaches a value. */
  lemma {:induction false} NoColonStaysInKey(q: Scan, d: string)
    requires q == KeyStart || q == KeyHead || q == KeyBody || q == KeyDash || q == Dead
    requires NoColon(d)
    ensures var r := Run(q, d); r == KeyStart || r == KeyHead || r == KeyBody || r == KeyDash || r == Dead
    decreases |d|
  {
    if |d| > 0 {
      NoColonStaysInKey(Step(q, d[0]), d[1..]);
    }
  }

  /**
   * A key line followed by a trailer block that starts with a key is a
   * trailer block.
   */
  lemma KeyLineThenBlock(k: string, v: string, t: string)
    requires IsKey(k) && OneLine(v)
    requires |t| > 0 && IsUpper(t[0]) && Block(t)
    ensures Block(k + ":" + v + "\n" + t)
  {
    var line := k + ":" + v;
    assert Run(KeyStart, line) == InValue by {
      assert line == k + (":" + v);
      RunAppend(KeyStart, k, ":" + v);
      assert (":" + v)[1..] == v;
      RunInValue(v);
    }
    assert line + "\n" + t == line + ("\n" + t);
    RunAppend(KeyStart, line, "\n" + t);
    assert ("\n" + t)[1..] == t;
    assert Run(AfterBreak, t) == Run(KeyHead, t[1..]) == Run(KeyStart, t);
  }

  /**
   * A one-line description without `:`, a blank line, then a trailer
   * block: the description keeps only its first line.
   */
  lemma DescriptionBeforeBlock(d: string, t: string)
    requires OneLine(d) && NoColon(d)
    requires Block(t)
    ensures FormatDescription(d + "\n\n" + t) == Strip(d)
  {
    var s := d + "\n\n" + t;
    var cut := |d| + 1;
    assert s[cut + 1..] == t;
    assert BlockAt(s, cut);
    HeadHasNoBlock(d, t);
    assert SearchFrom(s, 0) == Some(cut) by {
      SearchFinds(s, 0, cut);
    }
    assert s[..cut] == d + "\n";
    StripSpaceEnd(d, '\n');
    StripIdempotent(d);
  }

  /** No trailer block starts inside such a first line or at the blank line after it. */
  lemma HeadHasNoBlock(d: string, t: string)
    requires OneLine(d) && NoColon(d)
    ensures forall q :: 0 <= q <= |d| ==> !BlockAt(d + "\n\n" + t, q)
  {
    var s := d + "\n\n" + t;
    forall q | 0 <= q <= |d|
      ensures !BlockAt(s, q)
    {
      if q == 0 {
        assert s == d + ("\n\n" + t);
        RunAppend(KeyStart, d, "\n\n" + t);
        NoColonStaysInKey(KeyStart, d);
        RunDead(("\n\n" + t)[1..]);
      } else if q < |d| {
        assert s[q] == d[q];
      } else {
        assert s[q + 1..] == "\n" + t;
        RunDead(t);
      }
    }
  }

  /** The search stops at the first block position. */
  lemma {:induction false} SearchFinds(s: string, p: nat, c: nat)
    requires p <= c <= |s| && BlockAt(s, c)
    requires forall q :: p <= q < c ==> !BlockAt(s, q)
    ensures SearchFrom(s, p) == Some(c)
    decreases c - p
  {
    if p < c {
      SearchFinds(s, p + 1, c);
    }
  }

  /** Only word characters. */
  predicate Word(w: string) {
    forall i :: 0 <= i < |w| ==> IsWordChar(w[i])
  }

  lemma {:induction false} RunWord(w: string)
    requires Word(w)
    ensures Run(KeyBody, w) == KeyBody
    decreases |w|
  {
    if |w| > 0 {
      RunWord(w[1..]);
    }
  }

  /** An upper-case letter and at least one more word character make a key. */
  lemma FirstWordIsKey(w: string)
    requires |w| >= 2 && IsUpper(w[0]) && Word(w)
    ensures IsKey(w)
  {
    assert w[1..][1..] == w[2..];
    RunWord(w[2..]);
  }

  /** A key, `-` and a word make a key. */
  lemma DashWordIsKey(k: string, w: string)
    requires IsKey(k) && |w| > 0 && Word(w)
    ensures IsKey(k + "-" + w)
  {
    assert k + "-" + w == k + ("-" + w);
    RunAppend(KeyStart, k, "-" + w);
    assert ("-" + w)[1..][1..] == w[1..];
    RunWord(w[1..]);
  }

  /**
   * The description of a commit whose message ends in two trailer lines
   * (`Description`, a blank line, `Has-Trailers: At`, `The-Bottom: Of It`)
   * keeps only its first line.
   */
  lemma DescriptionExample(d: string, k1: string, v1: string, k2: string, v2: string)
    requires d == "Description"
    requires k1 == "Has" + "-" + "Trailers" && v1 == " At"
    requires k2 == "The" + "-" + "Bottom" && v2 == " Of It"
    ensures FormatDescription(d + "\n\n" + k1 + ":" + v1 + "\n" + k2 + ":" + v2) == d
  {
    ExampleParts(d, k1, v1, k2, v2);
    TwoTrailerLines(d, k1, v1, k2, v2);
  }

  lemma ExampleParts(d: string, k1: string, v1: string, k2: string, v2: string)
    requires d == "Description"
    requires k1 == "Has" + "-" + "Trailers" && v1 == " At"
    requires k2 == "The" + "-" + "Bottom" && v2 == " Of It"
    ensures OneLine(d) && NoColon(d) && Strip(d) == d
    ensures IsKey(k1) && IsKey(k2) && OneLine(v1) && OneLine(v2)
  {
    ExampleKeys();
    StrippedFixpoint(d);
  }

  lemma ExampleKeys()
    ensures IsKey("Has" + "-" + "Trailers") && IsKey("The" + "-" + "Bottom")
  {
    DashKey("Has", "Trailers");
    DashKey("The", "Bottom");
  }

  lemma DashKey(a: string, b: string)
    requires |a| >= 2 && IsUpper(a[0]) && Word(a) && |b| > 0 && Word(b)
    ensures IsKey(a + "-" + b)
  {
    FirstWordIsKey(a);
    DashWordIsKey(a, b);
  }

  /**
   * A one-line description without `:`, a blank line and two trailer
   * lines: what is kept is the trimmed first line.
   */
  lemma TwoTrailerLines(d: string, k1: string, v1: string, k2: string, v2: string)
    requires OneLine(d) && NoColon(d)
    requires IsKey(k1) && IsKey(k2) && OneLine(v1) && OneLine(v2)
    ensures FormatDescription(d + "\n\n" + k1 + ":" + v1 + "\n" + k2 + ":" + v2) == Strip(d)
  {
    var t2 := k2 + ":" + v2;
    KeyIsUpperFirst(k2);
    assert t2[0] == k2[0];
    KeyLineIsBlock(k2, v2);
    KeyLineThenBlock(k1, v1, t2);
    var t := k1 + ":" + v1 + "\n" + t2;
    assert d + "\n\n" + k1 + ":" + v1 + "\n" + k2 + ":" + v2 == d + "\n\n" + t;
    DescriptionBeforeBlock(d, t);
  }

  /** A key starts with an upper-case letter. */
  lemma KeyIsUpperFirst(k: string)
    requires IsKey(k)
    ensures |k| > 0 && IsUpper(k[0])
  {
    if |k| == 0 || !IsUpper(k[0]) {
      RunDead(k[if |k| == 0 then 0 else 1..]);
    }
  }

  /** Stripping ignores one more whitespace character at the start. */
  lemma StripSpaceStart(c: char, x: string)
    requires IsSpace(c)
    ensures Strip([c] + x) == Strip(x)
  {
    assert ([c] + x)[1..] == x;
  }

  /** A line that starts with text without `:` followed by a space never starts a block. */
  lemma SpacedLineIsNoBlock(a: string, r: string, tail: string)
    requires NoColon(a)
    ensures !Block(a + " " + r + tail)
  {
    assert a + " " + r + tail == a + " " + (r + tail);
    SpaceEndsKey(KeyStart, a, r + tail);
  }

  /** A line feed at the start never starts a block. */
  lemma BreakIsNoBlock(t: string)
    ensures !Block("\n" + t)
  {
    assert ("\n" + t)[1..] == t;
    RunDead(t);
  }

  /**
   * A blank line, two paragraphs of one line each separated by a blank
   * line, and a blank line: when neither line starts a block, no block
   * starts anywhere.
   */
  lemma NoBlockInParagraphs(l1: string, l2: string, s: string)
    requires s == "\n" + l1 + "\n\n" + l2 + "\n\n"
    requires OneLine(l1) && OneLine(l2)
    requires !Block(l1 + "\n\n" + l2 + "\n\n") && !Block(l2 + "\n\n")
    ensures forall q :: 0 <= q <= |s| ==> !BlockAt(s, q)
  {
    var n := |l1|;
    var m := |l2|;
    forall q | 0 <= q <= |s|
      ensures !BlockAt(s, q)
    {
      if q == 0 {
        assert s == "\n" + (l1 + "\n\n" + l2 + "\n\n");
        BreakIsNoBlock(l1 + "\n\n" + l2 + "\n\n");
        assert s[1..] == l1 + "\n\n" + l2 + "\n\n";
      } else if q <= n {
        assert s[q] == l1[q - 1];
      } else if q == n + 1 {
        assert s[q + 1..] == "\n" + (l2 + "\n\n");
        BreakIsNoBlock(l2 + "\n\n");
      } else if q == n + 2 {
        assert s[q + 1..] == l2 + "\n\n";
      } else if q < n + m + 3 {
        assert s[q] == l2[q - n - 3];
      } else if q == n + m + 3 {
        assert s[q + 1..] == "\n" + "";
        BreakIsNoBlock("");
      } else if q == n + m + 4 {
        assert s[q + 1..] == "";
      }
    }
  }

  /**
   * A description of two one-line paragraphs between blank lines, each
   * line starting with text without `:` and a space, has no trailer
   * block: it is only trimmed.
   */
  lemma PlainDescription(a1: string, r1: string, a2: string, r2: string)
    requires NoColon(a1) && NoColon(a2) && OneLine(a1) && OneLine(r1) && OneLine(a2) && OneLine(r2)
    requires |a1| > 0 && !IsSpace(a1[0]) && |r2| > 0 && !IsSpace(r2[|r2| - 1])
    ensures FormatDescription("\n" + a1 + " " + r1 + "\n\n" + a2 + " " + r2 + "\n\n")
      == a1 + " " + r1 + "\n\n" + a2 + " " + r2
  {
    var l1, l2 := a1 + " " + r1, a2 + " " + r2;
    var t := l1 + "\n\n" + l2;
    var s := "\n" + t + "\n\n";
    assert s == "\n" + a1 + " " + r1 + "\n\n" + a2 + " " + r2 + "\n\n";
    assert t == a1 + " " + r1 + "\n\n" + a2 + " " + r2;
    PlainHasNoBlock(a1, r1, a2, r2, s);
    assert t[0] == a1[0] && t[|t| - 1] == r2[|r2| - 1];
    StripBlankAround(t);
  }

  /** No trailer block starts anywhere in such a description. */
  lemma PlainHasNoBlock(a1: string, r1: string, a2: string, r2: string, s: string)
    requires NoColon(a1) && NoColon(a2) && OneLine(a1) && OneLine(r1) && OneLine(a2) && OneLine(r2)
    requires s == "\n" + (a1 + " " + r1) + "\n\n" + (a2 + " " + r2) + "\n\n"
    ensures SearchFrom(s, 0).None?
  {
    var l1, l2 := a1 + " " + r1, a2 + " " + r2;
    OneLineJoin(a1, r1);
    OneLineJoin(a2, r2);
    SpacedLineIsNoBlock(a1, r1, "\n\n" + l2 + "\n\n");
    assert a1 + " " + r1 + ("\n\n" + l2 + "\n\n") == l1 + "\n\n" + l2 + "\n\n";
    SpacedLineIsNoBlock(a2, r2, "\n\n");
    NoBlockInParagraphs(l1, l2, s);
  }

  /** A trimmed text between a blank line before and a blank line after strips back to itself. */
  lemma StripBlankAround(t: string)
    requires IsStripped(t)
    ensures Strip("\n" + t + "\n\n") == t
  {
    assert "\n" + t + "\n\n" == ("\n" + t + "\n") + ['\n'];
    StripSpaceEnd("\n" + t + "\n", '\n');
    assert "\n" + t + "\n" == ("\n" + t) + ['\n'];
    StripSpaceEnd("\n" + t, '\n');
    assert "\n" + t == ['\n'] + t;
    StripSpaceStart('\n', t);
    StrippedFixpoint(t);
  }

  /** Two lines joined by a space are one line. */
  lemma OneLineJoin(a: string, r: string)
    requires OneLine(a) && OneLine(r)
    ensures OneLine(a + " " + r)
  {
  }

  /**
   * `This Description`, a blank line, `Does not have trailers: in it`,
   * between blank lines: nothing is cut, only the outer blank lines go.
   */
  lemma DescriptionWithoutTrailers(a1: string, r1: string, a2: string, r2: string)
    requires a1 == "This" && r1 == "Description" && a2 == "Does" && r2 == "not have trailers" + ": in it"
    ensures FormatDescription("\n" + a1 + " " + r1 + "\n\n" + a2 + " " + r2 + "\n\n")
      == a1 + " " + r1 + "\n\n" + a2 + " " + r2
  {
    PlainWords(a1, r1);
    PlainWords(a2, r2);
    PlainDescription(a1, r1, a2, r2);
  }

  /** A word of letters and a line of letters, spaces and `:`. */
  lemma PlainWords(a: string, r: string)
    requires |a| > 0 && forall i :: 0 <= i < |a| ==> IsLetter(a[i])
    requires |r| > 0 && IsLetter(r[|r| - 1]) && forall i :: 0 <= i < |r| ==> IsLetter(r[i]) || r[i] == ' ' || r[i] == ':'
    ensures NoColon(a) && OneLine(a) && OneLine(r) && !IsSpace(a[0]) && !IsSpace(r[|r| - 1])
  {
  }
}
