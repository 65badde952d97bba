# pyconjp_domains: talks, factories and the timetable, in Dafny

`pyconjp_domains` turns the JSON that the Sessionize service returns for a
conference (sessions, rooms, speakers, category groups, questions) into
`ScheduledTalks` and writes the timetable as CSV rows. This project models
that core and proves what it promises:

- `talks.py`: the records (`Speaker`, `Category`, `QuestionAnswer`, `Talk`,
  `Slot`, `ScheduledTalk`), their properties and `as_list`, the two
  `flatten_raw_json` loops over nested JSON, `Talks.from_raw_json`,
  `Talks.filter_by`, slicing and indexing, `Slot.create`, the `SlotFactory`
  of this file and `ScheduledTalks.sorted`;
- `factories.py`: `CategoryFactory`, `QuestionAnswerFactory`, `SlotFactory`
  with its per-day slot numbering, `SpeakerFactory` and
  `ScheduledTalkFactory` with `calculate_duration_min`;
- `core.py`: the session filters, the lookup maps,
  `create_date_string_to_slot_number_map` and `create_talks_from_data`;
- `__main__.py`, lines 13-63: the field list, the sorted rows, the in-place
  rewriting of each row (day, start time, slot number, speaker names and
  profiles) and the header row.

Layout, one module per file:

| file | module | what it holds |
|---|---|---|
| `wrappers.dfy` | `Wrappers` | `Option`, `Result`, the Python exceptions the code can raise, `dict.get` and `dict[k]` |
| `strings.dfy` | `Strings` | Python's `<` on `str`, `in` on `str`, `", ".join`, ASCII `lower()` |
| `sequences.dfy` | `Sequences` | list comprehensions with a condition, loops that stop at the first exception, dict comprehensions (the last pair wins), the stable `sorted` |
| `timestamps.dfy` | `Timestamps` | `strptime(s, "%Y-%m-%dT%H:%M:%S")`, `strftime("%m/%d")` and `("%H:%M")`, `timedelta.seconds` |
| `sessionize.dfy` | `Sessionize` | the shapes of the raw JSON records |
| `talks.dfy` | `Talks` | the records of `talks.py`, their properties, `getattr`, `as_list`, `Slot.create`, `SlotFactory`, the two `flatten_raw_json` loops |
| `talk_collections.dfy` | `TalkCollections` | `Talks.from_raw_json`, `filter_by`, `__getitem__`, `ScheduledTalks.sorted` |
| `slot_numbering.dfy` | `SlotNumbering` | the per-day slot numbering of `factories.py` and `core.py` |
| `factories.dfy` | `Factories` | the five factories of `factories.py` |
| `core.dfy` | `Core` | `core.py` |
| `timetable.dfy` | `Timetable` | the rows and headers of the timetable |
| `fixtures.dfy` | `Fixtures` | the concrete cases of the repository's tests, stated as lemmas |

How Python becomes Dafny here:

- an exception is the `Err` case of a `Result`, naming the exception (`KeyError`, `IndexError`,
  `ValueError`, `TypeError`, `AttributeError`, `UnboundLocalError`);
- `getattr(talk, name)` is a function from the attribute name to a `Value`;
- the loops of the source are methods with loop invariants, each proved
  equal to a specification function about which the lemmas speak;
- the rows of the timetable are arrays, rewritten in place as in
  `__main__.py`.

Where the code and what the repository's tests or documentation expect disagree, the model follows the code:

- `tests/pyconjp_domains/test_core.py:28` expects the title
  "スペシャルブース紹介" to be kept, but `is_included` drops every title
  that starts with "スペシャルブース" (`Fixtures.DroppedTitles`).
- `tests/pyconjp_domains/test_core.py:42-49` calls a
  `calculate_duration_min` that `core.py` does not define. The duration is
  modelled on `ScheduledTalkFactory.calculate_duration_min`
  (`Fixtures.HalfHourTalk`).
- A speaker without a profile (`bio` is null) makes `"\n\n".join` raise
  `TypeError`. It does not give an empty cell (`Timetable.TimetableOfTalks`).
- A "Venue open" session gets slot number 0 only when no other modal session
  starts at the same time, since the numbering is keyed by the start string
  (`Core.VenueOpenIsUnnumbered`, `Core.PipelineSlotNumbers`).
- `ScheduledTalkFactory.create` never uses its category, answer and speaker
  factories: every talk it makes has no category, no answers and no
  speakers. It is modelled as written (`Factories.CreateIgnoresResolvers`).
- `tests/pyconjp_domains/fixtures/core__create_talks_from_data.py:255-304`
  expects every content talk to be built from eight arguments, so its
  `slide_url` and `recording_url` are `None`, although those sessions carry
  `"liveUrl": ""` and `"recordingUrl": ""` (lines 86-87, 103-104, 120-121,
  137-138). The corrected `Core.CreateTalk` follows the comment at
  `core.py:140` instead: it uses the live URL as the slide URL and the
  recording URL as the recording URL, so on those sessions both are
  `Some("")`. The fixture's sessions carry no `endsAt`, so the corrected
  duration, which `Core.CreateTalk` takes from `startsAt` and `endsAt` as
  `ScheduledTalkFactory.create` does (`factories.py:178-180`), cannot be
  compared with it; the fixture expects only some integer `duration_min` in
  eighth position.
- `tests/pyconjp_domains/test_main.py:10` calls `parse_field_arguments`,
  which `__main__.py` does not define. No member models it.

## Model

| member | source | states |
|---|---|---|
| Wrappers.Get | pyconjp_domains/factories.py:70-78 | `dict.get(k)` is `Some` exactly when the key is present, and then it is the key's value |
| Wrappers.Lookup | pyconjp_domains/core.py:124-134 | `d[k]` succeeds exactly when the key is present, with its value; otherwise it raises `KeyError` |
| Strings.LexLessIrreflexive | pyconjp_domains/factories.py:132 | no string sorts before itself under Python's `<` on `str` |
| Strings.LexLessAsymmetric | pyconjp_domains/factories.py:132 | two strings never sort before each other |
| Strings.LexLessTransitive | pyconjp_domains/factories.py:132 | `<` on `str` is transitive |
| Strings.LexLessTotal | pyconjp_domains/factories.py:132 | of two different strings, one sorts before the other, so `sorted` has one answer |
| Strings.LexLessAppend | pyconjp_domains/factories.py:132 | comparing two concatenations whose first parts have equal length compares the first parts, then the rest |
| Strings.LexLessSplit | pyconjp_domains/factories.py:132 | comparing two strings compares their first `k` characters, then the rest |
| Strings.ContainsAt | pyconjp_domains/talks.py:228-236 | `keyword in text` holds exactly when the keyword occurs at some position of the text |
| Strings.ContainsWitness | pyconjp_domains/talks.py:228-236 | a contained keyword has a position where it occurs |
| Strings.OccursContains | pyconjp_domains/talks.py:228-236 | a keyword that occurs at a position is contained |
| Strings.Lower | pyconjp_domains/talks.py:236 | `lower()` keeps the length and lowers every character in place |
| Strings.JoinLength | pyconjp_domains/__main__.py:40-41 | a join is as long as its parts plus one separator between each two |
| Strings.JoinSnoc | pyconjp_domains/__main__.py:40-41 | joining one more part appends the separator and that part |
| Sequences.Filter | pyconjp_domains/core.py:30-32 | a filter keeps exactly the members that satisfy the condition and is no longer than its input |
| Sequences.FilterMultiset | pyconjp_domains/talks.py:218 | a filter keeps every copy of a member that satisfies the condition and no copy of the others |
| Sequences.FilterSubsequence | pyconjp_domains/talks.py:215-247 | a filter keeps the order of what it keeps |
| Sequences.IsSubsequenceReflexive | pyconjp_domains/talks.py:215-247 | a stage that filters nothing keeps the list as it is |
| Sequences.IsSubsequenceTransitive | pyconjp_domains/talks.py:215-247 | filters applied one after another keep the order of the original list |
| Sequences.FilterTwice | pyconjp_domains/talks.py:224-237 | filtering by one condition and then by another is filtering once by both |
| Sequences.FilterAll | pyconjp_domains/core.py:30-32 | a filter that every member passes returns the list unchanged |
| Sequences.FilterNone | pyconjp_domains/core.py:30-32 | a filter that no member passes returns the empty list |
| Sequences.FilterSnoc | pyconjp_domains/core.py:38-40 | a filter over one more element keeps that element exactly when it passes |
| Sequences.FilterLengthByMultiset | pyconjp_domains/factories.py:122-125 | how many members pass a filter does not depend on their order |
| Sequences.FilterLengthMonotone | pyconjp_domains/factories.py:129-134 | a weaker condition keeps at least as many members, and more when one present member passes only the weaker one |
| Sequences.FilterLengthAddOne | pyconjp_domains/factories.py:129-134 | two conditions that differ only on a member present once keep counts that differ by one |
| Sequences.FilterPrefix | pyconjp_domains/factories.py:129-134 | on a sorted list, the members not later than a given one form a prefix |
| Sequences.FilterPrefixRest | pyconjp_domains/factories.py:129-134 | past that prefix no member passes |
| Sequences.FilterAppendLength | pyconjp_domains/factories.py:129-134 | the count of passing members is additive over concatenation |
| Sequences.MapResult | pyconjp_domains/core.py:91-146 | a loop that stops at the first exception succeeds exactly when every element succeeds, gives their results in order, and otherwise raises the exception of the first failing element |
| Sequences.MapResultFirstFailure | pyconjp_domains/core.py:91-146 | the exception raised is that of the first failing element |
| Sequences.MapResultAllSucceed | pyconjp_domains/core.py:91-146 | when every element succeeds, the result is the list of their values |
| Sequences.FilterResult | pyconjp_domains/talks.py:218 | a comprehension whose condition may raise succeeds exactly when the condition succeeds on every member, and then keeps those for which it is true |
| Sequences.FilterResultAgrees | pyconjp_domains/talks.py:218 | a condition that never raises filters as the plain filter does |
| Sequences.MapFromPairs | pyconjp_domains/core.py:44 | a dict comprehension has exactly the listed keys, each mapped to its last listed value |
| Sequences.LastValueIsLast | pyconjp_domains/core.py:44 | the value a key gets is that of a pair with no later pair for the same key |
| Sequences.MapFromDistinctPairs | pyconjp_domains/core.py:44 | with distinct keys every pair is in the dict as listed |
| Sequences.Insert | pyconjp_domains/talks.py:213 | inserting into a sorted list adds exactly the new element |
| Sequences.SortBy | pyconjp_domains/talks.py:213 | `sorted` returns a permutation of its input |
| Sequences.SortByMembers | pyconjp_domains/talks.py:213 | `sorted` keeps exactly the members of its input |
| Sequences.InsertSorted | pyconjp_domains/talks.py:213 | inserting into a sorted list keeps it sorted |
| Sequences.SortBySorted | pyconjp_domains/talks.py:213 | `sorted` sorts by the key |
| Sequences.InsertSameKey | pyconjp_domains/talks.py:213 | insertion puts an element in front of the equal-keyed ones already there, which makes sorting by insertion from the end stable |
| Sequences.SortByStable | pyconjp_domains/talks.py:213 | `sorted` is stable: elements with equal keys keep their input order |
| Sequences.SortBySortedIsIdentity | pyconjp_domains/talks.py:213 | sorting a sorted list changes nothing |
| Sequences.SortByIdempotent | pyconjp_domains/talks.py:213 | sorting twice is sorting once |
| Sequences.SameKeyMember | pyconjp_domains/talks.py:213 | the equal-keyed run of a list holds exactly the members with that key |
| Sequences.StableSortIsUnique | pyconjp_domains/talks.py:213 | two sorted lists with the same equal-keyed runs are the same list, so a stable sort has one answer |
| Timestamps.DaysInMonth | pyconjp_domains/talks.py:259-261 | the days `strptime` accepts in a month number at least 28 and at most 31 |
| Timestamps.DigitsOrder | pyconjp_domains/factories.py:132 | equal-length digit strings compare under `<` as their numbers do |
| Timestamps.DateFieldsOrder | pyconjp_domains/factories.py:132 | two timestamps compare by their dates first, then by the rest |
| Timestamps.TimeFieldsOrder | pyconjp_domains/factories.py:132 | the time parts of two timestamps compare as their times do |
| Timestamps.LexOrderIsChronological | pyconjp_domains/factories.py:132 | one timestamp string sorts before another exactly when its instant is earlier |
| Timestamps.ParseInjective | pyconjp_domains/talks.py:259-262 | two timestamps with the same date and time are the same string |
| Timestamps.Pad2 | pyconjp_domains/__main__.py:37-38 | `%m`, `%d`, `%H` and `%M` write two digits that read back as the number |
| Timestamps.Pad2OfDigits | pyconjp_domains/__main__.py:37-38 | writing back the number that two digits read as gives those digits |
| Timestamps.ParseDate | pyconjp_domains/talks.py:259-262 | `start_datetime.date()` of a timestamp; `Timestamps.ParseInjective` and `Timestamps.LexOrderIsChronological` prove that it and `ParseTime` keep every timestamp apart and order them as their text does |
| Timestamps.ParseTime | pyconjp_domains/talks.py:259-262 | `start_datetime.time()` of a timestamp; with `ParseDate` it is injective (`Timestamps.ParseInjective`) and chronological in the text order (`Timestamps.LexOrderIsChronological`) |
| Timestamps.FormatMonthDay | pyconjp_domains/__main__.py:37 | `date.strftime("%m/%d")`; `Timestamps.FormatMonthDayOfParsed` proves that on a parsed start it gives back the month and day text around a slash |
| Timestamps.FormatHourMinute | pyconjp_domains/__main__.py:38 | `time.strftime("%H:%M")`; `Timestamps.FormatHourMinuteOfParsed` proves that on a parsed start it gives back the hour and minute text around a colon |
| Timestamps.FormatMonthDayOfParsed | pyconjp_domains/__main__.py:37 | the `%m/%d` cell of a parsed start is its month and day characters around a slash |
| Timestamps.FormatHourMinuteOfParsed | pyconjp_domains/__main__.py:38 | the `%H:%M` cell of a parsed start is its hour and minute characters around a colon |
| Timestamps.Ordinal | pyconjp_domains/factories.py:171 | `date.toordinal()`, the day count that `end_datetime - start_datetime` subtracts; `Factories.ElapsedSameDay` proves that equal dates cancel |
| Timestamps.ElapsedSeconds | pyconjp_domains/factories.py:169-171 | the total seconds of `end_datetime - start_datetime`; `Factories.ElapsedSameDay` proves it is the difference of the times of day on one day, and `Factories.DurationModuloDay` that the duration is it modulo one day, in whole minutes |
| Timestamps.TimedeltaSeconds | pyconjp_domains/factories.py:171-172 | `timedelta.seconds` lies in `[0, 86400)` and differs from the total by whole days |
| Talks.Talk.SpeakerNames | pyconjp_domains/talks.py:169-171 | one name per speaker, in order |
| Talks.Talk.SpeakerProfiles | pyconjp_domains/talks.py:173-175 | one profile per speaker, in order, `None` kept |
| Talks.TalkAttribute | pyconjp_domains/talks.py:133-178 | `getattr` on a talk fails only with `AttributeError` |
| Talks.ScheduledAttribute | pyconjp_domains/talks.py:278-299 | `getattr` on a scheduled talk fails only with `AttributeError` |
| Talks.TalkAttributeNamesKnown | pyconjp_domains/talks.py:133-178 | `getattr` on a talk succeeds exactly for its fields and properties |
| Talks.ScheduledAttributeNamesKnown | pyconjp_domains/talks.py:278-299 | `getattr` on a scheduled talk succeeds exactly for its own and its inherited attributes, and the inherited ones read as on the talk |
| Talks.DerivedAttributes | pyconjp_domains/talks.py:285-299 | `room`, `day`, `start_time` and `slot_number` read the slot; the category and answer properties read as below |
| Talks.CategoryAttributes | pyconjp_domains/talks.py:141-155 | the four category properties are `None` without a category and its fields with one |
| Talks.NoCategoryAttributes | pyconjp_domains/talks.py:141-155 | without a category the four properties are `None` |
| Talks.CategoryValueAttributes | pyconjp_domains/talks.py:141-155 | with a category the four properties are its fields |
| Talks.AnswerAttributes | pyconjp_domains/talks.py:157-167 | the three answer properties are `None` without answers and the answers' fields with them |
| Talks.NoAnswerAttributes | pyconjp_domains/talks.py:157-167 | without answers the three properties are `None` |
| Talks.AnswerValueAttributes | pyconjp_domains/talks.py:157-167 | with answers the three properties are their fields |
| Talks.AsList | pyconjp_domains/talks.py:177-178 | `as_list` succeeds exactly when every field is an attribute, gives their values in field order, and otherwise raises a failing field's exception |
| Talks.SlotCreate | pyconjp_domains/talks.py:257-262 | `Slot.create` succeeds exactly on a well-formed start, raising `ValueError` otherwise; the day and the time are the parsed ones, room and number as given |
| Talks.SlotCreateOrder | pyconjp_domains/talks.py:257-262 | slots are in start-string order exactly when their instants are, and equal instants mean equal strings |
| Talks.SlotFactory.Create | pyconjp_domains/talks.py:270-275 | succeeds exactly when the room and the start are both known and the start is well formed, raising `KeyError` for an unknown room or start |
| Talks.LastNamed | pyconjp_domains/talks.py:29-44 | the group a name ends up taken from is present exactly when the name occurs, and carries that name |
| Talks.GroupChoiceStep | pyconjp_domains/talks.py:29-44 | one more group changes only the choice for its own name, to its first item |
| Talks.ChoicesPresentStep | pyconjp_domains/talks.py:29-44 | one more group keeps every recognised group non-empty exactly when it is non-empty or unrecognised |
| Talks.ChoiceOfPresentGroup | pyconjp_domains/talks.py:29-44 | when recognised groups are non-empty, a name has a choice exactly when it occurs |
| Talks.FlattenCategoriesSpec | pyconjp_domains/talks.py:27-54 | what the loop of `flatten_raw_json` returns; `Talks.FlattenCategories` proves the loop equals it and that it raises `IndexError` for a group without items, `UnboundLocalError` for a missing group, and otherwise takes the first item of each group's last occurrence |
| Talks.FlattenCategories | pyconjp_domains/talks.py:8-54 | raises `IndexError` when a recognised group has no items and `UnboundLocalError` when a group is missing; otherwise all four choices are present, each the first item of the group's last occurrence |
| Talks.LastAnswered | pyconjp_domains/talks.py:110-125 | the answer a question ends up taken from is present exactly when the question occurs, and carries that question |
| Talks.FlattenQuestionAnswersSpec | pyconjp_domains/talks.py:110-129 | what the loop over the answers returns; `Talks.FlattenQuestionAnswers` proves the loop equals it, that it succeeds exactly when all three questions occur and that each answer is that of the last occurrence |
| Talks.FlattenQuestionAnswers | pyconjp_domains/talks.py:110-129 | succeeds exactly when all three questions occur (`UnboundLocalError` otherwise); each answer is that of the question's last occurrence |
| TalkCollections.IntOf | pyconjp_domains/talks.py:205 | `int(session["id"])` keeps a number, reads decimal text and raises `ValueError` on other text |
| TalkCollections.DecimalText | pyconjp_domains/talks.py:205 | every natural number has non-empty decimal text that reads back as it |
| TalkCollections.IntOfDecimalText | pyconjp_domains/talks.py:205 | `int` reads back the decimal text of every integer, sign included |
| TalkCollections.NestedSpeakers | pyconjp_domains/talks.py:197-199 | one speaker per entry, with its name and no profile |
| TalkCollections.NestedTalk | pyconjp_domains/talks.py:196-211 | one session's conversion; `TalkCollections.ConvertSession` proves the loop body equals it and `TalkCollections.NestedTalkShape` that a converted talk has an integer id and speakers without profiles |
| TalkCollections.FromRawJsonSpec | pyconjp_domains/talks.py:193-213 | convert every session, stop at the first exception, sort by id; `TalkCollections.FromRawJson` proves the loop equals it, `TalkCollections.FromRawJsonTalks` that it holds exactly the converted talks and `TalkCollections.FromRawJsonOrder` that they are in id order |
| TalkCollections.ConvertSession | pyconjp_domains/talks.py:196-212 | the body of the loop equals the specification of one session's conversion |
| TalkCollections.FromRawJson | pyconjp_domains/talks.py:193-213 | the loop equals the specification: convert every session, stop at the first exception, sort by id |
| TalkCollections.IdLeTotalPreorder | pyconjp_domains/talks.py:213 | ordering by id is a total preorder |
| TalkCollections.FromRawJsonTalks | pyconjp_domains/talks.py:193-213 | succeeds exactly when every session converts, and then holds exactly the converted talks |
| TalkCollections.NestedTalkShape | pyconjp_domains/talks.py:204-211 | a converted talk has an integer id and speakers without profiles |
| TalkCollections.FromRawJsonIds | pyconjp_domains/talks.py:193-213 | every talk of the result has that shape |
| TalkCollections.FromRawJsonOrder | pyconjp_domains/talks.py:213 | the talks are sorted by id, and talks with equal ids keep their input order |
| TalkCollections.SearchText | pyconjp_domains/talks.py:229-236 | the searched text exists exactly when the talk has all three answers |
| TalkCollections.TrackTest | pyconjp_domains/talks.py:217-218 | the track condition; `TalkCollections.TrackStage` proves its stage keeps exactly the talks whose track is requested |
| TalkCollections.LevelTest | pyconjp_domains/talks.py:219-220 | the level condition; `TalkCollections.LevelStage` proves its stage keeps exactly the talks whose level is requested |
| TalkCollections.KeywordTest | pyconjp_domains/talks.py:221-237 | the keyword condition as written, the keyword in the lowered text; `TalkCollections.KeywordStagesFilter` proves its stages keep exactly the talks matching every keyword and `TalkCollections.CapitalKeywordNeverMatches` that a capital letter in the keyword matches nothing |
| TalkCollections.EnglishTest | pyconjp_domains/talks.py:238-246 | the English-only condition; `TalkCollections.EnglishStage` proves its stage keeps the talks spoken in English or whose slides are not "Japanese only" |
| TalkCollections.FilterBySpec | pyconjp_domains/talks.py:215-247 | the four stages, each skipped when its request entry is empty; `TalkCollections.FilterBy` proves the method equals it, `TalkCollections.FilterByMatches` that it keeps exactly the talks matching the whole request, `TalkCollections.FilterBySubsequence` that it keeps them in order |
| TalkCollections.FilterBy | pyconjp_domains/talks.py:215-247 | the method equals the specification of the four stages, each skipped when its request entry is empty |
| TalkCollections.StageSubsequence | pyconjp_domains/talks.py:215-247 | each stage keeps the order of the talks it keeps |
| TalkCollections.KeywordStagesSubsequence | pyconjp_domains/talks.py:224-237 | the keyword stages together keep the order |
| TalkCollections.FilterBySubsequence | pyconjp_domains/talks.py:215-247 | `filter_by` returns talks of its input in their input order |
| TalkCollections.FilterByEmptyRequest | pyconjp_domains/talks.py:215-247 | an empty request returns every talk |
| TalkCollections.KeywordsMatchAll | pyconjp_domains/talks.py:224-237 | the keywords combine with AND: a talk matches them exactly when its text contains every one |
| TalkCollections.TrackStage | pyconjp_domains/talks.py:217-218 | on talks that each have a category (their answers may be `None`), the track stage keeps exactly the talks whose track is requested |
| TalkCollections.LevelStage | pyconjp_domains/talks.py:219-220 | on talks that each have a category (their answers may be `None`), the level stage keeps exactly the talks whose level is requested |
| TalkCollections.EnglishStage | pyconjp_domains/talks.py:238-246 | on talks that each have a category (their answers may be `None`), the English stage keeps the talks spoken in English or whose slides are not "Japanese only" |
| TalkCollections.KeywordStagesFilter | pyconjp_domains/talks.py:221-237 | the keyword stages keep exactly the talks that match every keyword |
| TalkCollections.FilterByMatches | pyconjp_domains/talks.py:215-247 | on talks with a category and all answers, `filter_by` keeps exactly the talks that match every part of the request |
| TalkCollections.FilterByNeedsCategory | pyconjp_domains/talks.py:217-218 | a track request over a talk without a category raises `AttributeError` |
| TalkCollections.CapitalKeywordNeverMatches | pyconjp_domains/talks.py:221-237 | as written, a keyword holding a capital letter matches no talk |
| TalkCollections.LowerIdempotent | pyconjp_domains/talks.py:236 | lowering twice is lowering once |
| TalkCollections.LowerAppend | pyconjp_domains/talks.py:229-236 | lowering a concatenation lowers each part |
| TalkCollections.ContainsInPrefix | pyconjp_domains/talks.py:229-236 | what the title contains, the joined text contains |
| TalkCollections.CaseInsensitiveAgreesOnLowerCase | pyconjp_domains/talks.py:221-237 | on a lower-case keyword the corrected test and the written one agree |
| TalkCollections.CaseInsensitiveKeywordTestProperties | pyconjp_domains/talks.py:221-237 | the corrected test ignores the keyword's case and matches any title containing the keyword in any case |
| TalkCollections.SliceBound | pyconjp_domains/talks.py:309-312 | a slice bound, negative or past the end, is clamped into the list |
| TalkCollections.Slice | pyconjp_domains/talks.py:309-312 | a slice holds the elements from the clamped start to the clamped stop, in order |
| TalkCollections.Index | pyconjp_domains/talks.py:309-312 | an index succeeds exactly from `-len` to `len - 1`, raising `IndexError` otherwise, and returns a member |
| TalkCollections.SliceSplit | pyconjp_domains/talks.py:309-312 | `xs[:i] + xs[i:]` and `xs[:]` are `xs` |
| TalkCollections.IndexIsSingletonSlice | pyconjp_domains/talks.py:309-312 | for every key `xs[key]` accepts, negative ones included, `xs[key]` is the one element of `xs[key:key+1]` (of `xs[-1:]` for key -1, the last element) |
| TalkCollections.IndexFromEnd | pyconjp_domains/talks.py:309-312 | a negative key `-k` picks the element `len(xs) - k`, so `xs[-1]` is the last |
| TalkCollections.KeyTrichotomy | pyconjp_domains/talks.py:314-317 | two talks' sort keys (day, slot number, room) are ordered one way, or are equal |
| TalkCollections.KeyLessTransitive | pyconjp_domains/talks.py:314-317 | the key order is transitive |
| TalkCollections.KeyLeTotalPreorder | pyconjp_domains/talks.py:314-317 | the key order is a total preorder |
| TalkCollections.SortedScheduledTalks | pyconjp_domains/talks.py:314-317 | the stable sort on `(day, slot_number, room)`; `TalkCollections.SortedScheduledTalksProperties` proves it is an ordered, stable, idempotent permutation and `TalkCollections.SortedScheduledTalksUnique` that it is the only one |
| TalkCollections.SortedScheduledTalksProperties | pyconjp_domains/talks.py:314-317 | `sorted()` is a permutation ordered by day, then slot number, then room, stable and idempotent |
| TalkCollections.SortedScheduledTalksUnique | pyconjp_domains/talks.py:314-317 | any list that is ordered and keeps the equal-keyed runs is the result of `sorted()` |
| SlotNumbering.DateOf | pyconjp_domains/factories.py:110-112 | `date_from_string` succeeds exactly on well-formed timestamps |
| SlotNumbering.DayGroupIsFilter | pyconjp_domains/factories.py:122-125 | a day's list holds the starts of that day, in input order |
| SlotNumbering.Enumerate | pyconjp_domains/factories.py:129-134 | `enumerate(..., start=1)` numbers every listed start, from 1 to the list's length |
| SlotNumbering.DayNumbers | pyconjp_domains/factories.py:127-135 | a day's numbers cover exactly that day's starts |
| SlotNumbering.GroupByDay | pyconjp_domains/factories.py:122-125 | the grouping loop fails exactly when a start is not a timestamp; otherwise each day's list is the filter of the starts by that day |
| SlotNumbering.GroupStep | pyconjp_domains/factories.py:124-125 | appending a start to its day's list keeps every list equal to its filter |
| SlotNumbering.DayGroupMissing | pyconjp_domains/factories.py:122-125 | a day no start falls on has no entry |
| SlotNumbering.MergeDays | pyconjp_domains/factories.py:127-135 | the update loop numbers every start by its own day's numbering |
| SlotNumbering.MergeStep | pyconjp_domains/factories.py:128-135 | one more day's update keeps the numbers of the days already done |
| SlotNumbering.NumbersSpec | pyconjp_domains/factories.py:118-137 | the whole map, `ValueError` when a start cannot be read; `SlotNumbering.NumbersAreRanks` proves it maps every start to its rank on its day |
| SlotNumbering.SlotNumbers | pyconjp_domains/factories.py:118-137 | the map `_create_datetime_string_to_slot_number_map` returns; `SlotNumbering.SlotNumbersFollowTime` proves an earlier time on the same day gets a smaller number |
| SlotNumbering.NumberStarts | pyconjp_domains/factories.py:118-137 | the method equals the specification of the slot numbering |
| SlotNumbering.LexLessEqTotalPreorder | pyconjp_domains/factories.py:132 | `<=` on `str` is a total preorder |
| SlotNumbering.LexLessEqAntisymmetric | pyconjp_domains/factories.py:132 | strings each `<=` the other are equal |
| SlotNumbering.EnumerateLast | pyconjp_domains/factories.py:129-134 | a start listed more than once gets the number of its last position |
| SlotNumbering.SortedRank | pyconjp_domains/factories.py:129-134 | in a sorted list, a start's number is how many entries are not later than it |
| SlotNumbering.SortedLastPosition | pyconjp_domains/factories.py:129-134 | that count is the start's last position |
| SlotNumbering.Rank | pyconjp_domains/factories.py:131-133 | how many starts of the same day are not later than a start; `SlotNumbering.RankBounds` bounds it by 1 and the day's count, and `SlotNumbering.RankFollowsOrder` proves it grows with the start |
| SlotNumbering.NotLaterPrefix | pyconjp_domains/factories.py:129-134 | in a sorted list, the entries not later than a start come first |
| SlotNumbering.DayNumberIsRank | pyconjp_domains/factories.py:127-135 | a start's number is its rank among the starts of its day |
| SlotNumbering.NumbersAreRanks | pyconjp_domains/factories.py:118-137 | the numbering succeeds exactly when every start is a timestamp (`ValueError` otherwise) and maps every start to its rank on its day |
| SlotNumbering.RankBounds | pyconjp_domains/factories.py:118-137 | numbers run from 1 to the number of starts that day |
| SlotNumbering.SameMembers | pyconjp_domains/factories.py:122-125 | lists with the same elements have the same members |
| SlotNumbering.NumbersIgnoreOrder | pyconjp_domains/core.py:88-90 | the numbering does not depend on the order in which the starts come, so iterating a `set` is harmless |
| SlotNumbering.RankOfDistinct | pyconjp_domains/factories.py:118-137 | a start listed once is numbered one more than the earlier starts of its day |
| SlotNumbering.RankFollowsOrder | pyconjp_domains/factories.py:118-137 | a start sorting before another on the same day gets a smaller number |
| SlotNumbering.SlotNumbersFollowTime | pyconjp_domains/factories.py:118-137 | an earlier time on the same day gets a smaller number |
| Factories.FlattenItemsMembers | pyconjp_domains/factories.py:45-59 | the nested comprehension ranges over every item of every group |
| Factories.ItemTitles | pyconjp_domains/factories.py:45-51 | the item id to group title map; `Factories.ItemMaps` proves it has exactly the listed ids, each mapped to the title of a group listing that id |
| Factories.ItemNames | pyconjp_domains/factories.py:53-59 | the item id to item name map; `Factories.ItemMaps` proves it has exactly the listed ids, each mapped to the name of an item with that id |
| Factories.ItemMaps | pyconjp_domains/factories.py:45-59 | both item maps have exactly the listed item ids, mapped to a title and a name found with that id |
| Factories.CategoryFactory.Create | pyconjp_domains/factories.py:21-35 | the loop equals the specification: `KeyError` for an unknown id, otherwise each group's choice and "All" as level for a plenary |
| Factories.CategoryFactory.CreateSpec | pyconjp_domains/factories.py:21-35 | `KeyError` for an unknown id, otherwise each group's last choice and "All" as level for a plenary; `Factories.CategoryFactory.Create` proves the loop equals it, and the lemmas below state its parts |
| Factories.CategoryFactory.ChoiceIsLast | pyconjp_domains/factories.py:24-33 | a group has no choice exactly when no value belongs to it; otherwise the choice is the name of its last value |
| Factories.CategoryFactory.OtherGroupIgnored | pyconjp_domains/factories.py:24-33 | a value outside the four groups changes nothing |
| Factories.CategoryFactory.LastIdWins | pyconjp_domains/factories.py:24-33 | the last value of a group decides that group's choice |
| Factories.CategoryFactory.CreateNoValues | pyconjp_domains/factories.py:21-35 | no values give an empty category, with level "All" for a plenary |
| Factories.CategoryFactory.PlenaryLevel | pyconjp_domains/factories.py:34 | a plenary succeeds exactly when every value is known; its level is "All" whatever the values say, and its other fields are those of a non-plenary |
| Factories.CategoryFactoryFrom | pyconjp_domains/factories.py:37-43 | `CategoryFactory.from_`; `Factories.CategoryFactoryFromKnows` proves it knows exactly the item ids of the raw groups |
| Factories.CategoryFactoryFromKnows | pyconjp_domains/factories.py:37-59 | `from_` knows exactly the item ids of the raw groups |
| Factories.AnswerLookup | pyconjp_domains/factories.py:67-78 | an answer looked up is that of the question's last entry, or `None` when there is none |
| Factories.QuestionAnswerFactory.Create | pyconjp_domains/factories.py:66-79 | succeeds exactly when all three question labels are known, raising `KeyError` otherwise |
| Factories.QuestionAnswerFactory.CreateAnswers | pyconjp_domains/factories.py:66-79 | each of the three answers is that of the question's last entry, or `None` |
| Factories.QuestionIds | pyconjp_domains/factories.py:81-86 | the question map has exactly the listed questions |
| Factories.QuestionIdIsLast | pyconjp_domains/factories.py:81-86 | each question maps to the id of its last listing: a listing with that text and id, after which the text is not listed again |
| Factories.RoomNames | pyconjp_domains/factories.py:114-116 | the room map has exactly the listed room ids |
| Factories.RoomNamesOfDistinct | pyconjp_domains/factories.py:114-116 | with distinct ids every room is mapped to its name |
| Factories.SlotFactory.Create | pyconjp_domains/factories.py:94-100 | succeeds exactly for a known room and a well-formed start, `KeyError` for an unknown room; the number is 0 for a start with no number |
| Factories.SlotFactoriesDiffer | pyconjp_domains/factories.py:94-100 | the factory of `factories.py` agrees with that of `talks.py` on numbered starts and gives 0 where the other raises `KeyError` |
| Factories.SlotFactoryFrom | pyconjp_domains/factories.py:102-108 | `from_` succeeds exactly when every start is a timestamp (`ValueError` otherwise), with the room map and the slot numbering |
| Factories.FactorySlotNumber | pyconjp_domains/factories.py:94-137 | a slot made by a factory built with `from_` is numbered by the start's rank on its day, or 0 |
| Factories.SpeakerFactory.Create | pyconjp_domains/factories.py:144-146 | succeeds exactly for a known speaker id, raising `KeyError` otherwise, and then returns the speaker with the `fullName` and `bio` of that id's record |
| Factories.SpeakerFactoryFrom | pyconjp_domains/factories.py:148-151 | `SpeakerFactory.from_`; `Factories.SpeakerFactoryFromCreate` proves a speaker is then found exactly when listed, with the name and bio of its last entry |
| Factories.SpeakerFactoryFromCreate | pyconjp_domains/factories.py:144-151 | a speaker is found exactly when listed, with the name and bio of its last entry |
| Factories.TimedeltaSecondsIsModulo | pyconjp_domains/factories.py:171-172 | `timedelta.seconds` is the total number of seconds modulo one day |
| Factories.CalculateDurationMin | pyconjp_domains/factories.py:167-172 | succeeds exactly on two timestamps (`ValueError` otherwise); the result lies between 0 and 1439 |
| Factories.DurationModuloDay | pyconjp_domains/factories.py:167-172 | the duration is the elapsed seconds modulo one day, in whole minutes |
| Factories.DurationSameDay | pyconjp_domains/factories.py:167-172 | on one day, with the end not before the start, the duration is the time difference in whole minutes |
| Factories.ElapsedSameDay | pyconjp_domains/factories.py:171 | on one day the elapsed seconds are the difference of the times of day |
| Factories.ScheduledTalkFactory.Create | pyconjp_domains/factories.py:174-190 | succeeds exactly for a known room and two timestamps, `KeyError` for an unknown room; the talk has no category, no answers, no speakers and no URLs |
| Factories.ScheduledTalkFactory.CreateSlotAndDuration | pyconjp_domains/factories.py:174-190 | the slot is the slot factory's and the duration is `calculate_duration_min`'s |
| Factories.CreateIgnoresResolvers | pyconjp_domains/factories.py:154-190 | two factories sharing a slot factory make the same talk from every session |
| Core.IsIncluded | pyconjp_domains/core.py:21-27 | the loop equals the predicate: no excluded prefix starts the title |
| Core.IncludedPrefixes | pyconjp_domains/core.py:21-27 | a title is kept exactly when it starts with none of "スペシャルブース", "Ask the speaker" and "Break" |
| Core.FilterSessionsKeeps | pyconjp_domains/core.py:30-32 | `filter_sessions` keeps exactly the included sessions, in order |
| Core.FilterSessions | pyconjp_domains/core.py:30-32 | `filter_sessions`; `Core.FilterSessionsKeeps` proves it keeps exactly the included sessions, in order |
| Core.ModalSessions | pyconjp_domains/core.py:35-40 | the generator yields exactly the sessions whose title lacks "開場", in order |
| Core.ModalSessionsKeeps | pyconjp_domains/core.py:35-40 | those are exactly the input sessions without "開場" in their title |
| Core.DistinctStarts | pyconjp_domains/core.py:89 | the set of start times holds every start time once |
| Core.DistinctMultiset | pyconjp_domains/core.py:89 | a list without repeats counts every member once |
| Core.AnyListingOfTheSet | pyconjp_domains/core.py:88-90 | every order of iterating the set gives the same numbering |
| Core.SpeakerMapAgrees | pyconjp_domains/core.py:47-48 | the speaker map of `core.py` finds the same speaker as `SpeakerFactory`, or raises `KeyError` as it does |
| Core.SpeakerMap | pyconjp_domains/core.py:47-48 | `create_speaker_id_map`; `Core.SpeakerMapAgrees` proves it finds the same speaker as `SpeakerFactory`, or raises `KeyError` as it does |
| Core.ResolveSlot | pyconjp_domains/core.py:93-98 | the slot is made exactly for a known room and a well-formed start, `KeyError` for an unknown room |
| Core.ResolveCategory | pyconjp_domains/core.py:118-123 | `Category(*...)` succeeds exactly for four known item ids, taken in order as track, level, speaking and slide language |
| Core.ResolveAnswers | pyconjp_domains/core.py:110-134 | raises `KeyError` when one of the three question labels is unknown; succeeds exactly when all three labels are known and each of their questions is answered, and then holds the last answer to each, in the order pitch, prior knowledge, take-away; fails only with `KeyError` |
| Core.AnswersStricterThanFactory | pyconjp_domains/core.py:110-134 | where `QuestionAnswerFactory` gives a missing answer as `None`, `core.py` raises `KeyError`; otherwise both give the same answers |
| Core.MissingAnswerRaises | pyconjp_domains/core.py:124-134 | a content session lacking an answer to one of the three questions raises `KeyError` |
| Core.ResolveSpeakers | pyconjp_domains/core.py:135-138 | the speakers are found exactly when every id is known (`KeyError` otherwise), one per id, in order |
| Core.BindScheduledTalk | pyconjp_domains/talks.py:278-283 | the `ScheduledTalk` constructor accepts 8 to 10 positional arguments (`TypeError` otherwise) and binds them to the fields in order, the missing URLs as `None` |
| Core.ScheduledTalkArgs | pyconjp_domains/core.py:99-143 | as written, a service session passes 7 arguments and a content session 9, the last two being the live and the recording URL |
| Core.CreateTalkAsWritten | pyconjp_domains/core.py:92-143 | the loop body as written, binding positional arguments to `ScheduledTalk`; `Core.ServiceSessionRaises` proves a service session raises `TypeError` and `Core.ContentSessionMisbinds` that a content session binds its URLs to the wrong fields |
| Core.ServiceSessionRaises | pyconjp_domains/core.py:99-108 | as written, every service session whose slot resolves (a known room and a well-formed `startsAt`) raises `TypeError` |
| Core.ContentSessionMisbinds | pyconjp_domains/core.py:114-143 | as written, a content session binds its live URL to `duration_min`, its recording URL to `slide_url` and `None` to `recording_url` |
| Core.CreateTalk | pyconjp_domains/core.py:92-143 | the corrected loop body; `Core.CreateTalkFields`, `Core.CreateTalkSlot` and `Core.CreateContentTalk` prove which field of the talk comes from which part of the session, and `Core.ServiceTalkMatchesFactory` that a service talk is the one `ScheduledTalkFactory` makes |
| Core.CreateTalkFields | pyconjp_domains/core.py:92-143 | the corrected talk has the session's id, title, description, room, day, time, number (0 when not numbered) and duration; a service session has nothing more, a content session its category, answers, speakers and URLs |
| Core.CreateTalkSlot | pyconjp_domains/core.py:93-98 | the slot and the duration of a made talk are those resolved from the session |
| Core.CreateContentTalk | pyconjp_domains/core.py:114-143 | a content talk's category, answers and speakers are those resolved from the session |
| Core.ServiceTalkMatchesFactory | pyconjp_domains/core.py:99-108 | a corrected service talk is what `ScheduledTalkFactory.create` makes from the session |
| Core.CreateTalksSpec | pyconjp_domains/core.py:81-146 | filter, number the modal starts, make each kept session's talk, stop at the first exception; `Core.CreateTalksFromData` proves the loop equals it, `Core.PipelineTalks` that it gives one talk per kept session and `Core.PipelineSlotNumbers` how they are numbered |
| Core.CreateTalksFromData | pyconjp_domains/core.py:81-146 | the loop equals the specification: filter, number the modal starts, make each kept session's talk, stop at the first exception |
| Core.PipelineTalks | pyconjp_domains/core.py:81-146 | one talk per kept session, in order |
| Core.PipelineSlotNumbers | pyconjp_domains/core.py:88-97 | a talk is numbered 0 exactly when no modal session shares its start, otherwise by its start's rank on its day; equal starts get equal numbers |
| Core.VenueOpenIsUnnumbered | pyconjp_domains/core.py:88-97 | a "開場" session that shares its start with no modal session is numbered 0 |
| Timetable.HeadersFollowFields | pyconjp_domains/__main__.py:13-63 | there are 19 headers and 19 fields, and each header is its field's name or the name it is renamed to |
| Timetable.PartHeaders | pyconjp_domains/__main__.py:13-63 | each part of the headers matches its part of the fields, name for name |
| Timetable.FieldsAreAttributes | pyconjp_domains/__main__.py:13-34 | every field is an attribute of a scheduled talk, so `as_list` never raises |
| Timetable.RowOf | pyconjp_domains/__main__.py:34 | `talk.as_list(fields)`; `Timetable.RowOfTalk` proves it has 19 cells, the talk's attributes in field order |
| Timetable.RowOfTalk | pyconjp_domains/__main__.py:34 | each row has 19 cells, the attributes of its talk in field order |
| Timetable.CellOfTalk | pyconjp_domains/__main__.py:34 | any one cell is its field's attribute |
| Timetable.RewrittenCellsOfTalk | pyconjp_domains/__main__.py:34-39 | cells 3, 4 and 5 are the slot's day, start time and number |
| Timetable.DayCellOfTalk | pyconjp_domains/__main__.py:37 | cell 3 is the day |
| Timetable.StartCellOfTalk | pyconjp_domains/__main__.py:38 | cell 4 is the start time |
| Timetable.NumberCellOfTalk | pyconjp_domains/__main__.py:39 | cell 5 is the slot number |
| Timetable.SpeakerCellsOfTalk | pyconjp_domains/__main__.py:40-41 | the last two cells are the speakers' names and profiles |
| Timetable.RowOfTalkFormattable | pyconjp_domains/__main__.py:34-41 | a talk with a real date and time gives a row the loop can rewrite |
| Timetable.TimetableRows | pyconjp_domains/__main__.py:34 | the rows of the sorted talks; `Timetable.TimetableRowsOrder` proves one row per talk, in the order of `sorted()` |
| Timetable.TimetableRowsOrder | pyconjp_domains/__main__.py:34 | there is one row per talk, in the order of `sorted()` |
| Timetable.Present | pyconjp_domains/__main__.py:41 | profiles that are all present read as their texts |
| Timetable.FormatDayCell | pyconjp_domains/__main__.py:37 | `row[3].strftime("%m/%d")`; `Timetable.FormatRowCells` proves the day becomes its `%m/%d` text |
| Timetable.FormatStartCell | pyconjp_domains/__main__.py:38 | `row[4].strftime("%H:%M")`; `Timetable.FormatRowCells` proves the start becomes its `%H:%M` text |
| Timetable.NumberCell | pyconjp_domains/__main__.py:39 | a 0 slot number becomes `None`; `Timetable.FormatRowCells` proves every other number is kept |
| Timetable.JoinNamesCell | pyconjp_domains/__main__.py:40 | `", ".join(row[-2])`; `Timetable.FormatRowCells` proves the names are joined by ", " |
| Timetable.JoinProfilesCell | pyconjp_domains/__main__.py:41 | `"\n\n".join(row[-1])`, `TypeError` on a missing profile; `Timetable.FormatRowCells` proves the row fails exactly then and the profiles are otherwise joined by a blank line |
| Timetable.FormatRowSpec | pyconjp_domains/__main__.py:37-41 | rewriting keeps the row's length |
| Timetable.FormatRow | pyconjp_domains/__main__.py:37-41 | the in-place rewriting of one row equals its specification |
| Timetable.FormatRowKeepsOtherCells | pyconjp_domains/__main__.py:37-41 | rewriting changes only cells 3, 4, 5 and the last two |
| Timetable.FormatRowCells | pyconjp_domains/__main__.py:37-41 | the rewrite succeeds exactly when every profile is present (`TypeError` otherwise); the day becomes `%m/%d`, the time `%H:%M`, a 0 number `None`, names joined by ", " and profiles by a blank line |
| Timetable.FormatRowOfTalk | pyconjp_domains/__main__.py:36-41 | a talk's row rewrites exactly when every speaker has a profile, and otherwise raises `TypeError` |
| Timetable.FormattedRowOfTalk | pyconjp_domains/__main__.py:36-41 | the rewritten row of a talk, cell by cell, in terms of the talk |
| Timetable.RowResults | pyconjp_domains/__main__.py:36-41 | one rewrite result per row |
| Timetable.TableOutcome | pyconjp_domains/__main__.py:36-41 | the loop fails exactly when some row fails, with the first failing row's exception |
| Timetable.FormattedTable | pyconjp_domains/__main__.py:36-41 | the table after the loop keeps its number of rows |
| Timetable.TableSpecOutcome | pyconjp_domains/__main__.py:36-41 | the table rewrites exactly when every row does, then row for row, and otherwise fails with a row's exception |
| Timetable.TableSpec | pyconjp_domains/__main__.py:36-41 | the rows after the loop or its exception; `Timetable.TableSpecOutcome` proves it succeeds exactly when every row does and `Timetable.FormatTable` that the loop equals it |
| Timetable.FormatRows | pyconjp_domains/__main__.py:36-41 | the loop over distinct row arrays ends as specified: rows before the first failure rewritten, that row rewritten as far as it got, the rest untouched |
| Timetable.FormatRowAt | pyconjp_domains/__main__.py:36-41 | rewriting one row leaves the other rows as they are |
| Timetable.FirstFailure | pyconjp_domains/__main__.py:36-41 | the first failing row decides the outcome |
| Timetable.FormattedTableSplit | pyconjp_domains/__main__.py:36-41 | up to the first failure the rows are rewritten, after it they are as they were |
| Timetable.SortedRealSlots | pyconjp_domains/talks.py:314-317 | sorting keeps every talk's date and time real |
| Timetable.TimetableRowsFormattable | pyconjp_domains/__main__.py:34-41 | every row of the table can be rewritten |
| Timetable.NewRows | pyconjp_domains/__main__.py:34 | the rows are new, distinct arrays holding the cells |
| Timetable.Contents | pyconjp_domains/__main__.py:34-41 | reading the rows back gives their cells |
| Timetable.FormatTable | pyconjp_domains/__main__.py:34-41 | building and rewriting the rows equals the table's specification |
| Timetable.RetrieveTimetableRows | pyconjp_domains/__main__.py:13-41 | the whole of lines 13-41 equals the specification of the timetable of the talks |
| Timetable.TimetableOfTalks | pyconjp_domains/__main__.py:34-41 | the timetable is made exactly when every speaker of every talk has a profile, and otherwise raises `TypeError` |
| Timetable.TimetableSpec | pyconjp_domains/__main__.py:34-41 | the rows handed to the CSV writer; `Timetable.TimetableOfTalks` proves they are made exactly when every speaker has a profile, and otherwise `TypeError` |
| Timetable.TableSpecTypeErrors | pyconjp_domains/__main__.py:36-41 | when rows can fail only with `TypeError`, so can the table |
| Timetable.RowOutcomesOfTalks | pyconjp_domains/__main__.py:34-41 | the row of the `i`-th sorted talk rewrites exactly when that talk's profiles are all present |
| Timetable.TimetableRowsOfTalks | pyconjp_domains/__main__.py:34-41 | the timetable, when made, has one rewritten row per talk |
| Fixtures.KeptByFirstLetter | pyconjp_domains/core.py:21-27 | a title whose first letter starts no excluded prefix is kept |
| Fixtures.DroppedByPrefix | pyconjp_domains/core.py:21-27 | a title starting with an excluded prefix is dropped |
| Fixtures.KeptSlotTalk | tests/pyconjp_domains/test_core.py:14-18 | a title starting with "スロ" is kept |
| Fixtures.KeptTitles | tests/pyconjp_domains/test_core.py:7-39 | the nine titles the filter keeps, the four "スロット" talks among them |
| Fixtures.DroppedTitles | tests/pyconjp_domains/test_core.py:7-39 | the four titles the filter drops, "スペシャルブース紹介" among them |
| Fixtures.SessionFilterTitles | tests/pyconjp_domains/test_core.py:7-39 | the filter's verdict on every distinct title of the test: nine kept and four dropped |
| Fixtures.ReadTimestamp | tests/pyconjp_domains/test_factories.py:153-160 | a canonical timestamp reads as the date and time its digits spell |
| Fixtures.HalfHourTalk | tests/pyconjp_domains/test_factories.py:241-247 | 17:00 to 17:30 on one day lasts 30 minutes |
| Fixtures.EarlierSlotFirst | tests/pyconjp_domains/test_factories.py:162-182 | 15:00 is numbered before 16:00 on 15 October 2021 |

## Left out

- Fetching the data: `fetch_data`, `fetch_talks`, the `ENDPOINT_ID` variable and the URL (`core.py:16-18`, `core.py:149-151`, `__main__.py:8-11`) are network and environment access. The model starts from the decoded JSON.
- Writing the CSV file and parsing the command line (`__main__.py:64-79`) are file and process I/O. The model ends with the header row and the rewritten rows.
- `pyconjp_domains/constants.py` is not part of this model. Its `SESSIONIZE_DATETIME_FORMAT` is taken to be the `"%Y-%m-%dT%H:%M:%S"` of `talks.py:260` and `core.py:62`.
- Talks.SlotCreate: `strptime` is modelled on the canonical 19-character form only (four-digit year, two-digit fields, real dates and times). It does not model the one-digit fields, such as "2021-1-5T1:2:3", that Python also accepts.
- TalkCollections.IntOf: reads an optional `-` or `+` sign followed by ASCII decimal digits. It does not model the surrounding whitespace, the underscores between digits or the non-ASCII digits that `int` also accepts.
- Strings.Lower: lowers only `A`-`Z`. It does not model Unicode case mapping. The keyword search text is mostly Japanese, and the properties proved about keywords speak of ASCII capitals.
- Talks.TalkAttribute: `getattr` is modelled as a function over the known attribute names. Python's attribute lookup through the class and its `__dict__` is not modelled.
- The copy of `CategoryFactory` in `talks.py:57-100` is the same code as `factories.py:16-59`, so it is modelled once, by `Factories.CategoryFactory`.
- The copy of the slot numbering in `core.py:61-78` is the same code as `factories.py:110-137`, so it is modelled once, by `SlotNumbering`.
- Core.DistinctStarts: Python's `set` iteration order is unspecified. The model lists the set in one fixed order, and `Core.AnyListingOfTheSet` shows that every order gives the same numbering.
- Timetable.TimetableOfTalks: requires each talk's date and time to be real ones, as every `date` and `time` object is. Talks made by `Slot.create` satisfy this.
- Timetable.FormatRows: a rewritten cell that is not a list is modelled as raising `TypeError`. The model does not model `join` iterating over a string's characters, which no row of the model can reach.
- `Talks.__len__` and `ScheduledTalks.__len__` are `len` of the list. They are modelled by `|xs|` and need no member of their own.
- Slices with a step (`xs[a:b:c]`) are not modelled. `TalkCollections.Slice` models start and stop only.
- The numbering map asserted in `tests/pyconjp_domains/test_factories.py:162-182` is stated through its ordering consequence (`Fixtures.EarlierSlotFirst`), not as the whole literal map.
- The fixtures of `tests/pyconjp_domains/fixtures/` and the tests of `test_talks.py` are not restated value by value. The properties they rely on are proved in the table above. `test_main.py` tests `parse_field_arguments`, which `__main__.py` does not define, so nothing in the model corresponds to it.

## Findings

| source | as written | input that shows it | evidently intended | confidence | as-written member | corrected member |
|---|---|---|---|---|---|---|
| pyconjp_domains/core.py:99-108 | a service session builds `ScheduledTalk` from 7 positional arguments, but the constructor needs 8 because `duration_min` has no default | any service session whose slot resolves (a known room and a well-formed `startsAt`) | a talk with the duration of `calculate_duration_min`, as `ScheduledTalkFactory.create` makes it | high; not executed | Core.ServiceSessionRaises | Core.CreateTalk, Core.CreateTalkFields |
| pyconjp_domains/core.py:114-143 | a content session passes `liveUrl` and `recordingUrl` right after `slot`, so they land in `duration_min` and `slide_url` | any content session: `liveUrl` becomes the duration and `recording_url` is `None` | an integer `duration_min` in eighth position, as the fixture at `tests/pyconjp_domains/fixtures/core__create_talks_from_data.py:255-304` expects, computed from `startsAt` and `endsAt` as `ScheduledTalkFactory.create` does (`factories.py:178-180`); `liveUrl` as the slide URL and `recordingUrl` as the recording URL, following the comment at `core.py:140` (the fixture instead expects `None` for both) | high; not executed | Core.ContentSessionMisbinds | Core.CreateTalk, Core.CreateContentTalk |
| pyconjp_domains/talks.py:221-237 | the comment promises a case-insensitive search, but only the talk's text is lowered, never the keyword | keyword "Python" and a talk titled "Python入門": the lowered text has "python", so the talk is dropped | lower the keyword as well as the text | medium; not executed | TalkCollections.CapitalKeywordNeverMatches | TalkCollections.CaseInsensitiveKeywordTestProperties |

The corrected `Core.CreateTalk` is what `Core.CreateTalksFromData` and the
timetable use. `TalkCollections.FilterBy` keeps the search as written: no
other part of the core calls it. The corrected test agrees with the written
one on every lower-case keyword (`TalkCollections.CaseInsensitiveAgreesOnLowerCase`).
