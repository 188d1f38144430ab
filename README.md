# git-tidy core, modelled in Dafny

git-tidy keeps commit messages as schema-validated key/value records. This
project models the core of `tidy/core.py`:

- **The commit schema** (`_load_commit_schema`, module `Schema`). The user
  schema is validated: every entry needs a `label`, and only `description`
  may be `multiline`. It is then merged with the built-in schema.
- **Attribute normalisation** (`_format_commit_attr`, module `Format`).
  Trailer keys are trimmed, lower-cased and have `-` turned into `_`. The
  trailing trailer block of a description is cut off by an explicit
  recogniser for the `REGEX_RFC822_POSTFIX` pattern. Every other string is
  trimmed.
- **The commit record** (`Commit`, module `Commits`).
  - Construction: YAML decoding, formatting, flattening of the trailers
    (trailers win), parsing, and the degraded record for a message that
    does not decode.
  - Attribute lookup with its schema fallback.
  - The cached tag.
  - The `lint` pass rule and the pull-request range.
- **Tags** (`Tag.from_sha`, `Tag.date`, module `Git`). The `git describe`
  output is cut at the first `~`, `^` or `:`. The date is read once and
  cached. The shell is an oracle, and a ghost log records every command
  run.
- **The query algebra** (`_equals`, `Commits.filter`, `exclude` and `group`,
  module `Query`).
  - Filter and exclude are order-preserving, complementary selections.
  - Group keys come in first-seen order, optionally sorted, with `None`
    moved to the front or the back. Each key maps to `filter(attr, key)`.
- **The commit message** `tidy commit` writes from a validated entry
  (module `Message`): summary, description, then one `Key: value` trailer
  line per other field. `BuildMessage` writes the keys as the code does;
  `BuildMessageIntended` writes them as evidently intended (see
  "## Findings").

Supporting modules:

- `Text`: Python string operations (`strip`, `lower`, `title`, `replace`)
  over ASCII.
- `Values`: attribute values and Python's `<` and `sorted` on them.
- `Yaml`: decoded YAML values, with mappings kept in insertion order like a
  `dict`.
- `Errors`: the exception kinds.
- `Wrappers`: `Option` and `Result`.

The source does not always agree with the prose description of the system.
Where they differ, the model follows the code:

- **Schema merge.** A built-in entry that the user schema redefines is
  dropped from the built-in part, and the user's entry comes in the user's
  position after the remaining built-in entries. It is not replaced in
  place. `Schema.OverridingExample` shows `summary` and `description`
  ending up after the git fields.
- **Trailer keys.** They are trimmed only at the ends (`strip`), not of
  internal whitespace.
- **Missing `trailers`.** A decoded message without a `trailers` key makes
  a degraded record, because `commit_data['trailers']` raises.
  `Commits.MissingTrailersDegrades` states this.

## Model

| member | source | states |
|---|---|---|
| Query.Filter | tidy/core.py:392-410 | every element selected satisfies the criterion (`_equals`), and there are no more of them than in the collection |
| Query.Exclude | tidy/core.py:412-430 | every element kept fails the criterion, and there are no more of them than in the collection |
| Query.FilterExcludePartition | tidy/core.py:392-430 | filter and exclude with the same arguments together hold each element exactly as often as the collection does; their lengths sum to its length |
| Query.FilterExcludeOrder | tidy/core.py:404-430 | filter and exclude keep the collection's relative order (each is a subsequence of it) |
| Query.FilterMembers | tidy/core.py:363-430 | an element is in `filter` iff it is in the collection and satisfies the criterion; it is in `exclude` iff it is in the collection and does not |
| Query.FilterEmpty | tidy/core.py:404-410 | `filter` is empty iff no element satisfies the criterion |
| Query.MatchSelectsOnlyStrings | tidy/core.py:368-369 | with `match=True`, only elements with a string attribute are selected, and every non-string one is excluded |
| Query.FirstSeen | tidy/core.py:462-466 | the `OrderedDict` keys have no repeats and are exactly the values that occur |
| Query.FirstSeenPrefix | tidy/core.py:462-466 | keys come in first-occurrence order: the keys of a prefix of the values are a prefix of the keys of all of them |
| Query.FirstSeenDistinct | tidy/core.py:462-466 | values without repeats are their own key list |
| Query.Without | tidy/core.py:470-472 | the generator `k for k in keys if k is not None`: exactly the other values remain |
| Query.WithoutAbsent | tidy/core.py:470-472 | leaving out a value that does not occur changes nothing |
| Query.WithoutDistinct | tidy/core.py:470-472 | leaving out a value keeps a key list free of repeats |
| Query.RemoveOnly | tidy/core.py:480 | `keys.remove(None)` on keys without repeats is leaving `None` out |
| Query.NaturalKeys | tidy/core.py:461-466 | the loop building the natural key order yields the first-seen keys of the attribute values |
| Query.PlaceNone | tidy/core.py:478-481 | the `None` key is removed and put back at index 0 (`none_key_first`) or at the end |
| Query.SortKeys | tidy/core.py:469-472 | `sorted(..., reverse=descending_keys)` of the keys other than `None`, still free of repeats and without `None` |
| Query.ArrangeKeys | tidy/core.py:455-481 | the re-sorting and `None` placement of `group` equal the key-order specification, including the `TypeError` of sorting mixed kinds |
| Query.Arrange | tidy/core.py:467-481 | definition of the re-sorting and `None` placement; `Query.ArrangeKeys` implements it and the `Query.KeyOrder...` rows state its results |
| Query.KeyOrder | tidy/core.py:455-481 | definition: the first-seen keys, arranged |
| Query.Buckets | tidy/core.py:483-485 | definition: each key with `filter(attr, key)`; `Query.BucketContents` and the rows after it state the groups |
| Query.Group | tidy/core.py:432-485 | `group` fails with the key order's error, or maps each key of the key order, in order, to `filter(attr, key)` |
| Query.BodyKeys | tidy/core.py:469-476 | the sorted or natural body keys are the same values, without repeats and without `None` |
| Query.KeyOrderKeys | tidy/core.py:461-481 | the keys of `group` are exactly the distinct attribute values, each once |
| Query.SortStrict | tidy/core.py:470-472 | sorted keys are strictly ascending, and reversed sorted keys are strictly descending |
| Query.PrependNoneSorted | tidy/core.py:481 | putting `None` first keeps the other keys sorted |
| Query.AppendNoneSorted | tidy/core.py:473-474 | putting `None` last keeps the other keys sorted |
| Query.KeyOrderSorted | tidy/core.py:469-476 | with `ascending_keys` the keys other than `None` come out strictly ascending; with `descending_keys`, strictly descending (descending wins) |
| Query.KeyOrderNone | tidy/core.py:455-481 | `None` is at index 0 with `none_key_first`; it is last with `none_key_last` or when sorting; without flags the keys keep first-seen order |
| Query.KeyOrderTypeError | tidy/core.py:469-472 | sorting fails with `TypeError` iff a sort flag is set and two non-`None` values are of different kinds; nothing else fails |
| Query.PairKeyOrder | tidy/tests/test_integration.py:203-220 | for keys `None`, `d`, `v` with `d` before `v`: sorted ascending or descending, with `None` last unless asked first |
| Query.TagsOrdered | tidy/tests/test_integration.py:203-220 | the integration test's tags `dev1.2` and `v1.1` are ordered that way |
| Query.BucketContents | tidy/core.py:483-485 | each group holds, in the collection's order, exactly the elements whose attribute equals its key |
| Query.BucketsCover | tidy/core.py:483-485 | over keys without repeats that cover every attribute value, the group sizes sum to the collection's length |
| Query.GroupPartition | tidy/core.py:483-485 | the groups `group` returns together hold as many elements as the collection |
| Query.GroupPlacement | tidy/core.py:483-485 | every element is in the group keyed by its own attribute value |
| Values.LessIrreflexive | tidy/core.py:470-472 | Python `<` on attribute values is irreflexive |
| Values.LessTransitive | tidy/core.py:470-472 | Python `<` on attribute values is transitive |
| Values.LessTotal | tidy/core.py:470-472 | two different values of one kind other than `None` are ordered one way or the other |
| Values.Insert | tidy/core.py:470-472 | insertion adds exactly the one element (as a multiset) |
| Values.InsertAscending | tidy/core.py:470-472 | inserting into an ascending sequence of one kind keeps it ascending |
| Values.Sort | tidy/core.py:470-472 | `sorted` returns a permutation of its input |
| Values.SortAscending | tidy/core.py:470-472 | `sorted` of values of one kind is ascending |
| Values.ReverseRoundTrip | tidy/core.py:470-472 | `reverse=True` reverses the sorted keys: reversing twice gives the keys back, and no key is lost or repeated (same multiset) |
| Schema.EntryFault | tidy/core.py:146-159 | definition: an entry without `label`, or with `multiline` on a label other than `description`, is refused |
| Schema.ValidateUserSchema | tidy/core.py:146-159 | the validation loop passes iff no entry is refused; otherwise it raises `SchemaError` for the first refused entry (a missing `label`, or `multiline` on a label other than `description`) |
| Schema.KeepDefaults | tidy/core.py:162-166 | no kept built-in entry has a label that the user schema redefines |
| Schema.LoadCommitSchema | tidy/core.py:68-168 | an unreadable file is an empty user schema; the result is `SchemaError` iff some entry is refused; otherwise it is the kept built-in entries followed by the user entries |
| Schema.KeepDefaultsOrder | tidy/core.py:162-166 | the kept built-in entries are in the built-in order |
| Schema.KeepDefaultsMembers | tidy/core.py:162-166 | a built-in entry is kept iff the user schema does not redefine its label |
| Schema.MergeSchema | tidy/core.py:161-166 | definition: the kept built-in entries, then the user entries; `Schema.MergeSchemaShape` and `Schema.MergeSchemaLabels` state the result |
| Schema.MergeSchemaShape | tidy/core.py:161-166 | the merge is the kept built-in entries in their order, then exactly the user entries in theirs; no kept entry has a user label |
| Schema.MergeSchemaLabels | tidy/core.py:161-166 | no label is lost: each built-in label is kept or supplied by the user entry that redefines it, and every user label is present |
| Schema.KeepDefaultsAll | tidy/core.py:162-166 | with nothing redefined, every built-in entry is kept |
| Schema.DefaultSchema | tidy/core.py:77-138 | definition: the built-in entries, one per built-in label |
| Schema.DefaultSchemaLabels | tidy/core.py:77-138 | the built-in schema lists `summary`, `description` and, when `full`, the seven git fields in that order |
| Schema.MergeRedefiningFirstTwo | tidy/core.py:161-166 | redefining the first two entries moves them behind the other built-in entries |
| Schema.MergeAddingOnly | tidy/core.py:161-166 | a user schema that redefines nothing comes after the whole built-in schema |
| Schema.OverridingExample | tidy/tests/test_core.py:43-59 | a user schema redefining `summary` and `description` and adding `type` gives the git fields, then `type`, `summary`, `description` |
| Schema.AddingExample | tidy/tests/test_core.py:60-65 | a user schema adding only `type` gives the built-in labels then `type` |
| Schema.MissingLabelExample | tidy/tests/test_core.py:67-72 | an entry without a label is refused |
| Schema.MultilineExample | tidy/tests/test_core.py:73-78 | a `multiline` entry other than `description` is refused |
| Format.NormalizeKey | tidy/core.py:189-191 | definition: the key trimmed, lower-cased, `-` turned into `_`; its shape and idempotence are the next two rows |
| Format.NormalizeKeyShape | tidy/core.py:189-191 | a normalised trailer key is trimmed and has no `-` and no upper-case letter |
| Format.NormalizeKeyIdempotent | tidy/core.py:189-191 | normalising a normalised key changes nothing |
| Format.TrailerEntries | tidy/core.py:188-194 | the trailers read iff every item is a mapping whose values are all strings; the pairs read have string values; otherwise `.items` or `.strip` raises `AttributeError` |
| Format.TrailerEntriesAppend | tidy/core.py:192-193 | reading two lists of trailer mappings one after the other reads the pairs of the first, then those of the second |
| Format.TrailerEntryRead | tidy/core.py:192-193 | every pair of every trailer mapping is among the pairs read |
| Format.TrailerEntryFromItem | tidy/core.py:192-193 | every pair read comes from one of the trailer mappings |
| Format.TrailerPairs | tidy/core.py:189-191 | one normalised pair per trailer pair |
| Format.TrailerPairsAt | tidy/core.py:189-191 | each pair is the trailer's key normalised and its value trimmed |
| Format.FormatTrailers | tidy/core.py:187-194 | the dict comprehension yields a mapping without repeated keys |
| Format.TrailersLastWins | tidy/core.py:188-194 | a formatted trailer key holds the trimmed value of the last trailer whose key normalises to it |
| Format.TrailerKeysNormalized | tidy/core.py:188-194 | every formatted trailer key is the normalised key of some trailer |
| Format.TrailerKeyKept | tidy/core.py:188-194 | conversely, the normalised key of every trailer given is a key of the formatted mapping |
| Format.Block | tidy/core.py:38-40 | definition: the recogniser, started at a key, ends in a value or right after a line feed |
| Format.BlockAt | tidy/core.py:197-199 | definition: a block starts at the very start of the text or right after a line feed |
| Format.SearchFrom | tidy/core.py:197-199 | `re.search` finds the first position where a trailer block starts, or none when there is none |
| Format.FormatDescription | tidy/core.py:195-200 | definition: cut at the first block, then trimmed; `Format.DescriptionKeepsHead` states the result |
| Format.DescriptionKeepsHead | tidy/core.py:195-200 | the description keeps the trimmed text before the earliest trailer block, or the whole trimmed text |
| Format.KeyLineIsBlock | tidy/core.py:38-40 | `Key:value` on one line is a trailer block |
| Format.BlankLineContinuesTrailer | tidy/core.py:38-40 | after `Key:value`, a blank line and any further line stay in the block (`\s` matches a line feed) |
| Format.SpaceEndsKey | tidy/core.py:38-40 | inside a key, text without `:` followed by a space kills the recogniser: no block can start on such a line |
| Format.KeyLineThenBlock | tidy/core.py:38-40 | a key line followed by a block that starts with a key is a block |
| Format.DescriptionBeforeBlock | tidy/core.py:195-200 | a one-line description without `:`, a blank line, then a block: only the trimmed first line is kept |
| Format.FirstWordIsKey | tidy/core.py:38-40 | an upper-case letter and at least one more word character make a key |
| Format.DashWordIsKey | tidy/core.py:38-40 | a key, `-`, and a word make a key |
| Format.KeyIsUpperFirst | tidy/core.py:38-40 | a key starts with an upper-case letter |
| Format.TwoTrailerLines | tidy/core.py:195-200 | a one-line description, a blank line and two trailer lines: the trimmed first line is kept |
| Format.DescriptionExample | tidy/tests/test_core.py:127-131 | `Description\n\nHas-Trailers: At\nThe-Bottom: Of It` formats to `Description` |
| Format.PlainDescription | tidy/core.py:195-200 | two one-line paragraphs between blank lines, each line starting with text without `:` and a space, have no trailer block: the description is only trimmed |
| Format.DescriptionWithoutTrailers | tidy/tests/test_core.py:134-135 | `\nThis Description\n\nDoes not have trailers: in it\n\n` formats to `This Description\n\nDoes not have trailers: in it` |
| Format.FormatAttr | tidy/core.py:182-205 | `trailers` gives a mapping without repeated keys; any other string comes out trimmed; a non-string `description` raises `TypeError`; other non-strings pass unchanged |
| Format.FormatAttrIdempotent | tidy/core.py:202-203 | an ordinary string attribute is trimmed, and formatting it again changes nothing |
| Format.TwoTrailers | tidy/tests/test_core.py:122-126 | two single-trailer mappings keep both trailers in order, unless the keys normalise alike, when the second value wins |
| Commits.FormatAll | tidy/core.py:282-285 | formatting keeps the number of attributes |
| Commits.FormatAllAt | tidy/core.py:282-285 | each key keeps its place and gets its formatted value |
| Commits.FormatAllOk | tidy/core.py:282-285 | formatting succeeds iff every attribute formats |
| Commits.FormatAllLookup | tidy/core.py:282-285 | a key looked up after formatting holds its formatted value, and an absent key stays absent |
| Commits.FormattedTrailers | tidy/core.py:282-291 | the formatted `trailers` attribute is a mapping without repeated keys |
| Commits.Flatten | tidy/core.py:288-291 | definition: the attributes without `trailers`, then every trailer put over them; `Commits.FlattenLookup` states what a lookup then finds |
| Commits.FlattenLookup | tidy/core.py:288-291 | after flattening, a trailer wins over a top-level attribute of the same name; `trailers` is gone unless a trailer has that name |
| Commits.LeadingSha | tidy/core.py:299-300 | a sha is found only when the message starts with the line `sha: <sha>` for a non-empty hex sha |
| Commits.HexEnd | tidy/core.py:299 | the end of the run of `[a-fA-F\d]` characters starting at `i` |
| Commits.LeadingShaIff | tidy/core.py:299-300 | the sha extracted is `h` iff the message starts with the line `sha: h` for a non-empty hex `h` |
| Commits.Attributes | tidy/core.py:278-291 | definition: decoded, formatted and flattened attributes, or none when a step raises; `Commits.TrailerOverrides` and `Commits.MissingTrailersDegrades` state its results |
| Commits.Build | tidy/core.py:278-310 | parsed attributes give a parsed record; otherwise a leading `sha:` line gives the degraded record (the sha and one `CommitParseError`, not parsed), and without one, `.group` raises `AttributeError` |
| Commits.MissingTrailersDegrades | tidy/core.py:290 | a decoded message without `trailers` makes a degraded record |
| Commits.TrailerOverrides | tidy/core.py:282-294 | what the parser receives: a trailer overrides a top-level attribute of the same name |
| Commits.Commit.constructor | tidy/core.py:271-310 | the record's fields are set and no tag is cached |
| Commits.Commit.Tag | tidy/core.py:354-360 | the first read runs `git describe` once and caches the tag (none for empty output); later reads run nothing and return the cached tag |
| Commits.NewCommit | tidy/core.py:271-310 | the message is trimmed, then built; the new commit holds the record, or the construction error is returned |
| Commits.Commit.Field | tidy/core.py:312-321 | a schema attribute reads iff the parsed data has it or the schema has its label; a parsed field reads as its parsed value (the first pair with that name); a value not in the parsed data is `None` for a label of the schema; otherwise `AttributeError` for that name |
| Commits.ParsedField | tidy/core.py:316-317 | on parsed data with unique keys, every parsed field reads as its value, also when the schema labels it |
| Commits.DegradedFields | tidy/core.py:312-321 | a degraded commit answers `sha`; a schema label it lacks reads as `None`; anything else raises `AttributeError`; it is not valid |
| Commits.Commit.IsValid | tidy/core.py:333-339 | definition: a commit is valid when validation found no error |
| Commits.Lint | tidy/core.py:713-717 | definition by `filter('is_valid', ...)`; `Commits.LintRule` states when it passes |
| Commits.LintRule | tidy/core.py:713-717 | lint passes iff no commit is invalid; with `any`, iff some commit is valid |
| Commits.PullRequestRange | tidy/core.py:488-490 | the range is the base followed by `..` |
| Git.Shell.Output | tidy/utils.py:16-21 | `shell_stdout` returns the command's output trimmed |
| Git.Shell.Run | tidy/utils.py:16-21 | runs one command, returns its trimmed output, and logs the command |
| Git.TagName | tidy/core.py:227-234 | the tag name is the longest prefix of the `git describe` output without `~`, `^` or `:` |
| Git.TagNameIsLongest | tidy/core.py:227-234 | the prefix up to the first separator is the tag name |
| Git.TagNameExample | tidy/tests/test_core.py:147 | `0.1~8` names the tag `0.1` |
| Git.DescribeCommand | tidy/core.py:222-224 | definition: `git describe <sha> --contains`, with ` --match=<pattern>` for a non-empty pattern |
| Git.DateCommand | tidy/core.py:245-247 | definition: `git log -1 --format=%ad <tag>` |
| Git.FromSha | tidy/core.py:214-234 | runs `git describe <sha> --contains [--match=...]` once; empty output gives no tag, otherwise a new tag with the extracted name and no cached date |
| Git.Tag.constructor | tidy/core.py:211-212 | a tag with its name and no cached date |
| Git.Tag.Date | tidy/core.py:236-252 | the first read runs `git log -1 --format=%ad <tag>` once and caches the parsed date (`None` when it does not parse); later reads run nothing |
| Git.DateTwice | tidy/tests/test_core.py:182-193 | reading the date twice runs git once and gives the same answer both times |
| Message.BuildMessage | tidy/core.py:666-677 | the message as the code writes it: the summary and description paragraphs, then each trailer field's line in entry order with the key of line 674 as written, trimmed |
| Message.BuildMessageIntended | tidy/core.py:666-677 | the same message with the corrected key (words joined by `-`) |
| Message.Compose | tidy/core.py:666-677 | the message for a given way of writing keys: paragraphs, trailer lines in entry order, trimmed |
| Message.AppendTrailers | tidy/core.py:672-675 | the loop appends, in entry order, the line of every field other than summary and description |
| Message.TrailerLineAt | tidy/core.py:672-675 | each field's line sits in its place: the lines of the fields before it, its own (or nothing), then the lines of the fields after it |
| Message.AsWrittenTrailerLine | tidy/core.py:672-675 | in the message as written, the line of a field with an inner `_` has a key with a space: not a trailer key, and it does not normalise back to the field name |
| Message.IntendedTrailerLine | tidy/core.py:672-675 | in the corrected message, the line of a snake-case field has a trailer key that normalises back to the field name |
| Message.MessageStartsWithSummary | tidy/core.py:666-668 | a message with a non-blank summary starts with the trimmed summary |
| Message.TitleKeyAsWrittenKeepsSpace | tidy/core.py:674 | the key the code writes for a field name with an inner `_` keeps a space there: it is not a trailer key, and it does not normalise back to the field name |
| Message.TitleKeyRoundTrip | tidy/core.py:674 | the corrected key normalises back to the field name when the name has no upper-case letter, `-` or whitespace |
| Message.TitleKeyIsKey | tidy/core.py:674 | the corrected key of a snake-case field name is a trailer key by the description's trailer pattern |
| Message.IntendedKey | tidy/core.py:674 | the corrected key of a snake-case field name is a trailer key and normalises back to the name |
| Text.Lower | tidy/core.py:190 | an upper-case letter becomes the lower-case letter at the same alphabet position; every other character is kept |
| Text.Upper | tidy/core.py:674 | a lower-case letter becomes the upper-case letter at the same alphabet position; every other character is kept |
| Text.CaseRoundTrip | tidy/core.py:190 | upper-casing a lower-cased upper-case letter gives it back, and the other way round |
| Text.LowerStr | tidy/core.py:190 | `lower()` lower-cases each character in place |
| Text.Replace | tidy/core.py:191 | `replace(a, b)` changes exactly the occurrences of `a` |
| Text.TitleShape | tidy/core.py:674 | `title()` keeps every character up to case; a letter comes out upper-case iff it starts the text or follows a non-letter; non-letters are kept |
| Text.StripLeft | tidy/core.py:189 | `lstrip()` removes exactly the leading whitespace |
| Text.StripRight | tidy/core.py:189 | `rstrip()` removes exactly the trailing whitespace |
| Text.Strip | tidy/core.py:189 | `strip()` leaves no whitespace at either end |
| Text.StripSlice | tidy/core.py:189 | `strip()` keeps a slice of the text with only whitespace around it, and gives the empty text iff the text is all whitespace |
| Text.StrippedFixpoint | tidy/core.py:203 | stripping trimmed text changes nothing |
| Text.StripIdempotent | tidy/core.py:203 | stripping twice is stripping once |
| Text.IndexOf | tidy/core.py:234 | the first occurrence of the separator, or the length when there is none |
| Yaml.Lookup | tidy/core.py:667-670 | `k in m` holds iff some pair has key `k`, and `m[k]` is the value of the first such pair; the same lookup reads `commit_data['trailers']` (line 290) |
| Yaml.Put | tidy/core.py:188-194 | `m[k] = v`: `k` then holds `v`, and every other key is unchanged |
| Yaml.PutKeys | tidy/core.py:188-194 | an existing key keeps its place; a new key goes last |
| Yaml.PutUnique | tidy/core.py:188-194 | assignment keeps a mapping free of repeated keys |
| Yaml.PutAllLookup | tidy/core.py:288-291 | after putting a list of pairs, a key holds its last value in the list, or else its old value |
| Yaml.UniqueLast | tidy/core.py:288-291 | in a mapping without repeated keys, the first pair with a key is also the last |
| Yaml.Remove | tidy/core.py:289 | the comprehension dropping `trailers` removes exactly that key |

## Left out

- YAML decoding is a parameter (`decode`), and so is the user schema file as
  decoded. An unreadable file is `None`.
- An empty user schema file (YAML `null`) is not modelled. The source would
  iterate over `None`.
- `formaldict.Schema.parse` and `prompt` are parameters. The entry `commit`
  writes from is given with string values.
- `dateutil` date parsing is a parameter (`parseDate`). A date is an integer
  stamp.
- The `re` engine is a parameter for `match=True` filtering. Only the
  description-suffix pattern is modelled, as an explicit recogniser.
- `\w`, `\d`, `\s`, `lower`, `upper` and `title` are modelled over ASCII
  (plus Python's whitespace characters). Unicode case mapping is not
  modelled.
- Subprocesses and git are an oracle, `Shell.stdout`: the decoded output of
  a command, which `Shell.Run` trims as `shell_stdout` does. The oracle also
  stands for the fetch and log calls of `CommitRange` and for
  `_check_git_version`.
  `_git_log_as_yaml`'s rewriting of git's output is not part of this model.
- Other parts of `commit` are not modelled: the pre-commit hook, the check
  for staged changes, and the temporary file passed to `git commit`. Only
  the message it writes is.
- Jinja rendering (`log`, `commit_template`), `_output`, the GitHub client
  (`github.py`) and the CLI are not part of this model. The pull-request
  base is a parameter of `PullRequestRange`.
- Commits.Commit.Tag: the sha is passed to `git describe` through `Str`.
  For a sha attribute that is a list or a mapping, the text is `""`, not
  Python's `str()` of it.
- The query key is an abstract projection (`key: T -> Value`), not
  `getattr`. An attribute lookup that raises is not modelled inside the
  query algebra. `Commit.Field` models that lookup on its own.
- Attribute lookup on a `Commit` models only schema attributes. Python's own
  attributes and properties shadowing them are not modelled.
- YAML mappings have string keys only. A message whose YAML has a non-string
  key (an integer, say) is not modelled.
- Schema entries are mappings. For a string entry, Python's
  `'label' not in entry` is a substring test; that case is not modelled.
- A tag is modelled as its name (`VStr`), which is right for `==`, ordering
  and `None` tests. Python's `Tag` is a `UserString`, not a `str`, so
  `filter('tag', p, match=True)` never selects a commit by its tag; the
  model matches the tag's name against `p` instead.
- Decoded YAML mappings should have unique keys, since `yaml.safe_load`
  returns a `dict`, but `decode` is not required to ensure it. For a
  repeated key, `Lookup` reads the first value, where PyYAML keeps the last.
- Python's `1 == True` is not reproduced: `YInt(1)` and `YBool(true)` are
  different values, for `_equals` and for group keys alike.
- Exceptions other than those listed in `Errors` are not modelled: a failing
  `shell`, keyboard interrupts, and the errors of the GitHub client.

## Findings

| source | as written | input that shows it | evidently intended | confidence | as-written member | corrected member |
|---|---|---|---|---|---|---|
| tidy/core.py:674 | `key.replace('_', ' ').title().replace('_', '-')`: the second `replace` finds no `_`, since every `_` is already a space, so it does nothing | the field `ticket_id` is written as the trailer `Ticket Id: ...`. That line is not a trailer by the description's trailer pattern (`[A-Z]\w+(-\w+)*`), and its key does not normalise back to `ticket_id` | `.replace(' ', '-')`, writing `Ticket-Id`, which is a trailer key and normalises back to `ticket_id` | medium, not executed | Message.BuildMessage, Message.AsWrittenTrailerLine, Message.TitleKeyAsWrittenKeepsSpace | Message.BuildMessageIntended, Message.IntendedTrailerLine, Message.TitleKeyRoundTrip, Message.TitleKeyIsKey |
