/** The resolvers of `pyconjp_domains/factories.py`: each turns ids found in a session into
    the values they stand for, through dictionaries built once from the schedule document. */
module Factories {
  import opened Wrappers
  import opened Sequences
  import opened Timestamps
  import opened Sessionize
  import opened Talks
  import opened SlotNumbering

  // ---------------------------------------------------------------------------------------
  // Comprehensions over the category groups: `{... for d in categories_raw_data for item in d["items"]}`.

  /** One entry per item, group by group and item by item, made by `f(group, item)`. */
  function FlattenItems<T>(groups: seq<RawCategoryGroup>, f: (RawCategoryGroup, RawCategoryItem) -> T): seq<T>
    decreases |groups|
  {
    if |groups| == 0 then []
    else
      var d := groups[|groups| - 1];
      FlattenItems(groups[..|groups| - 1], f) + seq(|d.items|, j requires 0 <= j < |d.items| => f(d, d.items[j]))
  }

  /** An entry of the flattened list is made from some item of some group, and every item of
      every group makes one. */
  lemma {:induction false} FlattenItemsMembers<T>(groups: seq<RawCategoryGroup>, f: (RawCategoryGroup, RawCategoryItem) -> T, x: T)
    ensures x in FlattenItems(groups, f) <==>
      exists i, j :: 0 <= i < |groups| && 0 <= j < |groups[i].items| && x == f(groups[i], groups[i].items[j])
    decreases |groups|
  {
    if |groups| > 0 {
      var n := |groups| - 1;
      var d := groups[n];
      var tail := seq(|d.items|, j requires 0 <= j < |d.items| => f(d, d.items[j]));
      FlattenItemsMembers(groups[..n], f, x);
      if x in FlattenItems(groups, f) {
        if x in tail {
          var j :| 0 <= j < |d.items| && tail[j] == x;
          assert x == f(groups[n], groups[n].items[j]);
        } else {
          assert x in FlattenItems(groups[..n], f);
          var i, j :| 0 <= i < n && 0 <= j < |groups[..n][i].items| && x == f(groups[..n][i], groups[..n][i].items[j]);
          assert groups[..n][i] == groups[i];
        }
      }
      if exists i, j :: 0 <= i < |groups| && 0 <= j < |groups[i].items| && x == f(groups[i], groups[i].items[j]) {
        var i, j :| 0 <= i < |groups| && 0 <= j < |groups[i].items| && x == f(groups[i], groups[i].items[j]);
        if i == n {
          assert tail[j] == x;
        } else {
          assert groups[..n][i] == groups[i];
        }
      }
    }
  }

  function TitleEntry(d: RawCategoryGroup, item: RawCategoryItem): (int, string) {
    (item.id, d.title)
  }

  function NameEntry(d: RawCategoryGroup, item: RawCategoryItem): (int, string) {
    (item.id, item.name)
  }

  /** There is an item with id `id` in one of the groups. */
  predicate HasItem(groups: seq<RawCategoryGroup>, id: int) {
    exists i, j :: 0 <= i < |groups| && 0 <= j < |groups[i].items| && groups[i].items[j].id == id
  }

  /** `_create_item_id_to_category_title_map`: item id to the title of its group. */
  function ItemTitles(groups: seq<RawCategoryGroup>): map<int, string> {
    MapFromPairs(FlattenItems(groups, TitleEntry))
  }

  /** `_create_item_id_to_name_map` (and `create_category_id_value_map` of core.py): item id to
      item name. */
  function ItemNames(groups: seq<RawCategoryGroup>): map<int, string> {
    MapFromPairs(FlattenItems(groups, NameEntry))
  }

  /** Both maps know exactly the ids of the items; the title an id is mapped to is the title of
      a group holding an item with that id, and its name is the name of such an item. */
  lemma ItemMaps(groups: seq<RawCategoryGroup>, id: int)
    ensures id in ItemTitles(groups) <==> HasItem(groups, id)
    ensures id in ItemNames(groups) <==> HasItem(groups, id)
    ensures id in ItemTitles(groups) ==>
      exists i, j :: 0 <= i < |groups| && 0 <= j < |groups[i].items|
        && groups[i].items[j].id == id && groups[i].title == ItemTitles(groups)[id]
    ensures id in ItemNames(groups) ==>
      exists i, j :: 0 <= i < |groups| && 0 <= j < |groups[i].items|
        && groups[i].items[j] == RawCategoryItem(id, ItemNames(groups)[id])
  {
    var titles, names := FlattenItems(groups, TitleEntry), FlattenItems(groups, NameEntry);
    if HasItem(groups, id) {
      var i, j :| 0 <= i < |groups| && 0 <= j < |groups[i].items| && groups[i].items[j].id == id;
      FlattenItemsMembers(groups, TitleEntry, TitleEntry(groups[i], groups[i].items[j]));
      FlattenItemsMembers(groups, NameEntry, NameEntry(groups[i], groups[i].items[j]));
      var a :| 0 <= a < |titles| && titles[a] == TitleEntry(groups[i], groups[i].items[j]);
      var b :| 0 <= b < |names| && names[b] == NameEntry(groups[i], groups[i].items[j]);
      assert id in KeysOf(titles) && id in KeysOf(names);
    }
    if id in ItemTitles(groups) {
      assert Get(ItemTitles(groups), id) == LastValue(titles, id);
      LastValueIsLast(titles, id);
      var a :| 0 <= a < |titles| && titles[a] == (id, ItemTitles(groups)[id]);
      FlattenItemsMembers(groups, TitleEntry, titles[a]);
    }
    if id in ItemNames(groups) {
      assert Get(ItemNames(groups), id) == LastValue(names, id);
      LastValueIsLast(names, id);
      var b :| 0 <= b < |names| && names[b] == (id, ItemNames(groups)[id]);
      FlattenItemsMembers(groups, NameEntry, names[b]);
    }
  }

  // ---------------------------------------------------------------------------------------
  // `CategoryFactory` (the copy in talks.py is the same code).

  datatype CategoryFactory = CategoryFactory(itemIdToCategoryTitle: map<int, string>, itemIdToName: map<int, string>) {

    /** An id `create` can read: its group is known, and so is its name when `create` needs it,
        which is when the group is one of the four it recognises. */
    predicate Known(value: int) {
      value in itemIdToCategoryTitle && (IsRecognisedGroup(itemIdToCategoryTitle[value]) ==> value in itemIdToName)
    }

    predicate AllKnown(values: seq<int>) {
      forall i :: 0 <= i < |values| ==> Known(values[i])
    }

    /** The name of the last id in `values` that belongs to `group`. */
    function Choice(values: seq<int>, group: string): Option<string>
      requires AllKnown(values) && IsRecognisedGroup(group)
      decreases |values|
    {
      if |values| == 0 then None
      else
        var last := values[|values| - 1];
        if itemIdToCategoryTitle[last] == group then Some(itemIdToName[last])
        else Choice(values[..|values| - 1], group)
    }

    /** What `create` returns: a `KeyError` on the first id it cannot read, and otherwise for
        each group the name of its last id; "All" as the level of a plenary session. */
    function CreateSpec(values: seq<int>, isPlenary: bool): Result<Category> {
      if !AllKnown(values) then Err(KeyError)
      else Ok(Category(
        Choice(values, TrackGroup),
        if isPlenary then Some("All") else Choice(values, LevelGroup),
        Choice(values, LanguageGroup),
        Choice(values, SlideLanguageGroup)))
    }

    /** `CategoryFactory.create`. */
    method Create(values: seq<int>, isPlenary: bool) returns (r: Result<Category>)
      ensures r == CreateSpec(values, isPlenary)
    {
      var track, level, speakingLanguage, slideLanguage := None, None, None, None;
      for i := 0 to |values|
        invariant AllKnown(values[..i])
        invariant track == Choice(values[..i], TrackGroup)
        invariant level == Choice(values[..i], LevelGroup)
        invariant speakingLanguage == Choice(values[..i], LanguageGroup)
        invariant slideLanguage == Choice(values[..i], SlideLanguageGroup)
      {
        var value := values[i];
        assert values[..i + 1][..i] == values[..i];
        if value !in itemIdToCategoryTitle {
          assert !Known(values[i]);
          return Err(KeyError);
        }
        var category := itemIdToCategoryTitle[value];
        if IsRecognisedGroup(category) && value !in itemIdToName {
          assert !Known(values[i]);
          return Err(KeyError);
        }
        if category == TrackGroup {
          track := Some(itemIdToName[value]);
        } else if category == LevelGroup {
          level := Some(itemIdToName[value]);
        } else if category == LanguageGroup {
          speakingLanguage := Some(itemIdToName[value]);
        } else if category == SlideLanguageGroup {
          slideLanguage := Some(itemIdToName[value]);
        }
      }
      assert values[..|values|] == values;
      level := if isPlenary then Some("All") else level;
      return Ok(Category(track, level, speakingLanguage, slideLanguage));
    }

    /** A group's field is the name of the last id of that group, and `None` when the group
        has no id in the list. */
    lemma {:induction false} ChoiceIsLast(values: seq<int>, group: string)
      requires AllKnown(values) && IsRecognisedGroup(group)
      ensures Choice(values, group).None? <==> forall i :: 0 <= i < |values| ==> itemIdToCategoryTitle[values[i]] != group
      ensures Choice(values, group).Some? ==>
        exists i :: 0 <= i < |values|
          && itemIdToCategoryTitle[values[i]] == group && itemIdToName[values[i]] == Choice(values, group).value
          && forall j :: i < j < |values| ==> itemIdToCategoryTitle[values[j]] != group
      decreases |values|
    {
      if |values| > 0 {
        var n := |values| - 1;
        var init := values[..n];
        assert forall i :: 0 <= i < n ==> init[i] == values[i];
        ChoiceIsLast(init, group);
      }
    }

    /** Appending an id of a group `create` does not recognise changes nothing. */
    lemma OtherGroupIgnored(values: seq<int>, value: int, isPlenary: bool)
      requires Known(value) && !IsRecognisedGroup(itemIdToCategoryTitle[value])
      ensures CreateSpec(values + [value], isPlenary) == CreateSpec(values, isPlenary)
    {
      var xs := values + [value];
      assert xs[..|values|] == values;
      assert AllKnown(xs) <==> AllKnown(values) by {
        if AllKnown(values) {
          forall i | 0 <= i < |xs| ensures Known(xs[i]) {
            if i < |values| {
              assert xs[i] == values[i];
            }
          }
        }
        if AllKnown(xs) {
          forall i | 0 <= i < |values| ensures Known(values[i]) {
            assert xs[i] == values[i];
          }
        }
      }
    }

    /** Appending an id of a recognised group makes its name that group's field, however many
        ids of that group came before. */
    lemma LastIdWins(values: seq<int>, value: int)
      requires AllKnown(values) && Known(value) && IsRecognisedGroup(itemIdToCategoryTitle[value])
      ensures AllKnown(values + [value])
      ensures Choice(values + [value], itemIdToCategoryTitle[value]) == Some(itemIdToName[value])
    {
      var xs := values + [value];
      forall i | 0 <= i < |xs| ensures Known(xs[i]) {
        if i < |values| {
          assert xs[i] == values[i];
        }
      }
    }

    /** No ids give all four fields `None`, except the level of a plenary session. */
    lemma CreateNoValues(isPlenary: bool)
      ensures CreateSpec([], isPlenary) == Ok(Category(None, if isPlenary then Some("All") else None, None, None))
    {
    }

    /** A plenary session's level is "All" whatever Level ids it has; a Level id is read all the
        same, so an unknown one still raises. */
    lemma PlenaryLevel(values: seq<int>)
      ensures CreateSpec(values, true).Ok? <==> AllKnown(values)
      ensures CreateSpec(values, true).Ok? ==> CreateSpec(values, true).value.level == Some("All")
      ensures CreateSpec(values, true).Ok? ==>
        CreateSpec(values, true).value.(level := None) == CreateSpec(values, false).value.(level := None)
    {
    }
  }

  /** `CategoryFactory.from_`. */
  function CategoryFactoryFrom(groups: seq<RawCategoryGroup>): CategoryFactory {
    CategoryFactory(ItemTitles(groups), ItemNames(groups))
  }

  /** A factory built from the category groups can read every id of their items and no other. */
  lemma CategoryFactoryFromKnows(groups: seq<RawCategoryGroup>, value: int)
    ensures CategoryFactoryFrom(groups).Known(value) <==> HasItem(groups, value)
  {
    ItemMaps(groups, value);
  }

  // ---------------------------------------------------------------------------------------
  // `QuestionAnswerFactory`.

  function AnswerPairs(answers: seq<RawAnswer>): seq<(int, string)> {
    seq(|answers|, i requires 0 <= i < |answers| => (answers[i].questionId, answers[i].answerValue))
  }

  /** `v` is what the answers say to question `id`: `None` when none answers it, and otherwise
      the value of the last answer to it. */
  predicate LastAnswerIs(answers: seq<RawAnswer>, id: int, v: Option<string>) {
    && (v.None? <==> forall i :: 0 <= i < |answers| ==> answers[i].questionId != id)
    && (v.Some? ==> exists i :: 0 <= i < |answers| && answers[i] == RawAnswer(id, v.value)
                      && forall j :: i < j < |answers| ==> answers[j].questionId != id)
  }

  /** `{d["questionId"]: d["answerValue"] for d in question_answers_data}.get(id)`. */
  lemma AnswerLookup(answers: seq<RawAnswer>, id: int)
    ensures LastAnswerIs(answers, id, Get(MapFromPairs(AnswerPairs(answers)), id))
  {
    var pairs := AnswerPairs(answers);
    var v := Get(MapFromPairs(pairs), id);
    assert v == LastValue(pairs, id);
    if v.Some? {
      LastValueIsLast(pairs, id);
      var i :| 0 <= i < |pairs| && pairs[i] == (id, v.value) && forall j :: i < j < |pairs| ==> pairs[j].0 != id;
      assert answers[i] == RawAnswer(id, v.value);
      forall j | i < j < |answers| ensures answers[j].questionId != id {
        assert pairs[j].0 == answers[j].questionId;
      }
    } else {
      forall i | 0 <= i < |answers| ensures answers[i].questionId != id {
        assert pairs[i].0 == answers[i].questionId;
        assert answers[i].questionId in KeysOf(pairs);
      }
    }
  }

  datatype QuestionAnswerFactory = QuestionAnswerFactory(questionValueToId: map<string, int>) {

    predicate KnowsLabels() {
      ElevatorPitchQuestion in questionValueToId && PriorKnowledgeQuestion in questionValueToId
      && TakeAwayQuestion in questionValueToId
    }

    /** `QuestionAnswerFactory.create`: a missing label raises `KeyError`, a missing answer is
        `None`. */
    function Create(answers: seq<RawAnswer>): (r: Result<QuestionAnswer>)
      ensures r.Ok? <==> KnowsLabels()
      ensures r.Err? ==> r.error == KeyError
    {
      var byQuestion := MapFromPairs(AnswerPairs(answers));
      var pitchId :- Lookup(questionValueToId, ElevatorPitchQuestion);
      var priorId :- Lookup(questionValueToId, PriorKnowledgeQuestion);
      var takeAwayId :- Lookup(questionValueToId, TakeAwayQuestion);
      Ok(QuestionAnswer(Get(byQuestion, pitchId), Get(byQuestion, priorId), Get(byQuestion, takeAwayId)))
    }

    /** Each field holds the last answer to the question its label names, or `None`, in the
        order pitch, prior knowledge, take-away. */
    lemma CreateAnswers(answers: seq<RawAnswer>)
      requires KnowsLabels()
      ensures LastAnswerIs(answers, questionValueToId[ElevatorPitchQuestion], Create(answers).value.elevatorPitch)
      ensures LastAnswerIs(answers, questionValueToId[PriorKnowledgeQuestion], Create(answers).value.audiencePriorKnowledge)
      ensures LastAnswerIs(answers, questionValueToId[TakeAwayQuestion], Create(answers).value.audienceTakeAway)
    {
      AnswerLookup(answers, questionValueToId[ElevatorPitchQuestion]);
      AnswerLookup(answers, questionValueToId[PriorKnowledgeQuestion]);
      AnswerLookup(answers, questionValueToId[TakeAwayQuestion]);
    }
  }

  function QuestionPairs(questions: seq<RawQuestion>): seq<(string, int)> {
    seq(|questions|, i requires 0 <= i < |questions| => (questions[i].question, questions[i].id))
  }

  /** `QuestionAnswerFactory.from_` (and `create_question_value_id_map` of core.py): question
      text to question id; a text asked twice keeps its last id. */
  function QuestionIds(questions: seq<RawQuestion>): (m: map<string, int>)
    ensures forall q :: q in m <==> exists i :: 0 <= i < |questions| && questions[i].question == q
  {
    var pairs := QuestionPairs(questions);
    var m := MapFromPairs(pairs);
    assert forall i :: 0 <= i < |questions| ==> questions[i].question == pairs[i].0;
    m
  }

  /** The id a question text maps to is the id of the last listing of that text. */
  lemma QuestionIdIsLast(questions: seq<RawQuestion>, q: string)
    requires q in QuestionIds(questions)
    ensures exists i :: && 0 <= i < |questions| && questions[i].question == q
                        && questions[i].id == QuestionIds(questions)[q]
                        && forall j :: i < j < |questions| ==> questions[j].question != q
  {
    var pairs := QuestionPairs(questions);
    assert Get(MapFromPairs(pairs), q) == LastValue(pairs, q);
    LastValueIsLast(pairs, q);
    var i :| 0 <= i < |pairs| && pairs[i] == (q, LastValue(pairs, q).value)
             && forall j :: i < j < |pairs| ==> pairs[j].0 != q;
    assert questions[i].question == q && questions[i].id == QuestionIds(questions)[q];
    forall j | i < j < |questions| ensures questions[j].question != q {
      assert pairs[j].0 == questions[j].question;
    }
  }

  // ---------------------------------------------------------------------------------------
  // `SlotFactory`.

  function RoomPairs(rooms: seq<RawRoom>): seq<(int, string)> {
    seq(|rooms|, i requires 0 <= i < |rooms| => (rooms[i].id, rooms[i].name))
  }

  /** `_create_room_id_to_name_map` (and `create_room_id_name_map` of core.py). */
  function RoomNames(rooms: seq<RawRoom>): (m: map<int, string>)
    ensures forall id :: id in m <==> exists i :: 0 <= i < |rooms| && rooms[i].id == id
  {
    var pairs := RoomPairs(rooms);
    assert forall i :: 0 <= i < |rooms| ==> rooms[i].id == pairs[i].0;
    MapFromPairs(pairs)
  }

  /** With distinct room ids, each room's id names that room. */
  lemma RoomNamesOfDistinct(rooms: seq<RawRoom>, i: nat)
    requires i < |rooms|
    requires forall a, b :: 0 <= a < b < |rooms| ==> rooms[a].id != rooms[b].id
    ensures rooms[i].id in RoomNames(rooms) && RoomNames(rooms)[rooms[i].id] == rooms[i].name
  {
    MapFromDistinctPairs(RoomPairs(rooms), i);
  }

  datatype SlotFactory = SlotFactoryOf(roomIdToName: map<int, string>, startsAtToSlotNumber: map<string, int>) {

    /** `SlotFactory.create`: an unknown room raises `KeyError`, a start time without a number
        gets number 0. */
    function Create(startsAt: string, roomId: int): (r: Result<Slot>)
      ensures r.Ok? <==> roomId in roomIdToName && WellFormed(startsAt)
      ensures roomId !in roomIdToName ==> r == Err(KeyError)
      ensures r.Ok? ==> r.value.room == roomIdToName[roomId]
      ensures r.Ok? ==> r.value.day == ParseDate(startsAt) && r.value.start == ParseTime(startsAt)
      ensures r.Ok? ==> r.value.number == if startsAt in startsAtToSlotNumber then startsAtToSlotNumber[startsAt] else 0
    {
      var room :- Lookup(roomIdToName, roomId);
      SlotCreate(room, startsAt, Get(startsAtToSlotNumber, startsAt).GetOr(0))
    }
  }

  /** The `SlotFactory` of talks.py looks the number up with `[]`: it agrees with this one on a
      start time that has a number, and raises `KeyError` where this one gives number 0. */
  lemma SlotFactoriesDiffer(rooms: map<int, string>, numbers: map<string, int>, startsAt: string, roomId: int)
    ensures startsAt in numbers ==>
      Talks.SlotFactory(rooms, numbers).Create(startsAt, roomId) == SlotFactoryOf(rooms, numbers).Create(startsAt, roomId)
    ensures startsAt !in numbers && roomId in rooms && WellFormed(startsAt) ==>
      && Talks.SlotFactory(rooms, numbers).Create(startsAt, roomId) == Err(KeyError)
      && SlotFactoryOf(rooms, numbers).Create(startsAt, roomId).Ok?
      && SlotFactoryOf(rooms, numbers).Create(startsAt, roomId).value.number == 0
  {
  }

  /** `SlotFactory.from_`: the start times are numbered per day (`ValueError` for one that is
      not a timestamp). */
  method SlotFactoryFrom(rooms: seq<RawRoom>, startsAtStrings: seq<string>) returns (r: Result<SlotFactory>)
    ensures r.Ok? <==> forall s :: s in startsAtStrings ==> WellFormed(s)
    ensures r.Err? ==> r.error == ValueError
    ensures r.Ok? ==> r.value.roomIdToName == RoomNames(rooms)
    ensures r.Ok? ==> r.value.startsAtToSlotNumber == SlotNumbers(startsAtStrings).value
  {
    var numbers := NumberStarts(startsAtStrings);
    if numbers.Err? {
      return Err(numbers.error);
    }
    return Ok(SlotFactoryOf(RoomNames(rooms), numbers.value));
  }

  /** A slot made by a factory built from the start times gets the rank of its start time in
      its day, and 0 when its start time was not among them. */
  lemma FactorySlotNumber(rooms: seq<RawRoom>, starts: seq<string>, startsAt: string, roomId: int)
    requires SlotNumbers(starts).Ok?
    requires SlotFactoryOf(RoomNames(rooms), SlotNumbers(starts).value).Create(startsAt, roomId).Ok?
    ensures var slot := SlotFactoryOf(RoomNames(rooms), SlotNumbers(starts).value).Create(startsAt, roomId).value;
      slot.number == if startsAt in starts then Rank(starts, DateOf, startsAt) else 0
  {
    NumbersAreRanks(starts, DateOf);
  }

  // ---------------------------------------------------------------------------------------
  // `SpeakerFactory`.

  function SpeakerPairs(speakers: seq<RawSpeaker>): seq<(string, RawSpeaker)> {
    seq(|speakers|, i requires 0 <= i < |speakers| => (speakers[i].id, speakers[i]))
  }

  datatype SpeakerFactory = SpeakerFactory(idToRawData: map<string, RawSpeaker>) {
    /** `SpeakerFactory.create`: the name and bio of the record with that id; an unknown id
        raises `KeyError`. */
    function Create(speakerId: string): (r: Result<Speaker>)
      ensures r.Ok? <==> speakerId in idToRawData
      ensures r.Err? ==> r.error == KeyError
      ensures r.Ok? ==> r.value == Speaker(idToRawData[speakerId].fullName, idToRawData[speakerId].bio)
    {
      var data :- Lookup(idToRawData, speakerId);
      Ok(Speaker(data.fullName, data.bio))
    }
  }

  /** `SpeakerFactory.from_`. */
  function SpeakerFactoryFrom(speakers: seq<RawSpeaker>): SpeakerFactory {
    SpeakerFactory(MapFromPairs(SpeakerPairs(speakers)))
  }

  /** A factory built from the speaker records knows exactly their ids, and makes each speaker
      from the last record with that id. */
  lemma SpeakerFactoryFromCreate(speakers: seq<RawSpeaker>, speakerId: string)
    ensures SpeakerFactoryFrom(speakers).Create(speakerId).Ok? <==>
      exists i :: 0 <= i < |speakers| && speakers[i].id == speakerId
    ensures SpeakerFactoryFrom(speakers).Create(speakerId).Ok? ==>
      exists i :: 0 <= i < |speakers|
        && speakers[i].id == speakerId
        && SpeakerFactoryFrom(speakers).Create(speakerId).value == Speaker(speakers[i].fullName, speakers[i].bio)
        && forall j :: i < j < |speakers| ==> speakers[j].id != speakerId
  {
    var pairs := SpeakerPairs(speakers);
    assert forall i :: 0 <= i < |speakers| ==> speakers[i].id == pairs[i].0;
    var m := MapFromPairs(pairs);
    if speakerId in m {
      assert Get(m, speakerId) == LastValue(pairs, speakerId);
      LastValueIsLast(pairs, speakerId);
      var i :| 0 <= i < |pairs| && pairs[i] == (speakerId, m[speakerId]) && forall j :: i < j < |pairs| ==> pairs[j].0 != speakerId;
      assert speakers[i] == m[speakerId];
    }
  }

  // ---------------------------------------------------------------------------------------
  // `ScheduledTalkFactory`.

  /** `timedelta.seconds` is the remainder of the elapsed seconds modulo a day. */
  lemma TimedeltaSecondsIsModulo(totalSeconds: int)
    ensures TimedeltaSeconds(totalSeconds) == totalSeconds % 86400
  {
    var seconds := TimedeltaSeconds(totalSeconds);
    var days :| totalSeconds == days * 86400 + seconds;
    var q, m := totalSeconds / 86400, totalSeconds % 86400;
    assert totalSeconds == q * 86400 + m;
  }

  /** `calculate_duration_min`: `(end - start).seconds // 60` for two timestamps, `ValueError`
      for anything else. */
  function CalculateDurationMin(start: string, end: string): (r: Result<int>)
    ensures r.Ok? <==> WellFormed(start) && WellFormed(end)
    ensures r.Err? ==> r.error == ValueError
    ensures r.Ok? ==> 0 <= r.value <= 1439
  {
    if WellFormed(start) && WellFormed(end) then Ok(TimedeltaSeconds(ElapsedSeconds(start, end)) / 60)
    else Err(ValueError)
  }

  /** The duration is the whole minutes of the elapsed time modulo a day: an end before the
      start wraps around instead of going negative. */
  lemma DurationModuloDay(start: string, end: string)
    requires WellFormed(start) && WellFormed(end)
    ensures CalculateDurationMin(start, end) == Ok((ElapsedSeconds(start, end) % 86400) / 60)
  {
    TimedeltaSecondsIsModulo(ElapsedSeconds(start, end));
  }

  /** On one day, from start to a later or equal end, the duration is the whole minutes between
      the two times of day. */
  lemma DurationSameDay(start: string, end: string)
    requires WellFormed(start) && WellFormed(end) && ParseDate(start) == ParseDate(end)
    requires SecondsOfDay(ParseTime(start)) <= SecondsOfDay(ParseTime(end))
    ensures CalculateDurationMin(start, end) ==
      Ok((SecondsOfDay(ParseTime(end)) - SecondsOfDay(ParseTime(start))) / 60)
  {
    DurationModuloDay(start, end);
    ElapsedSameDay(start, end);
    SmallRemainder(ElapsedSeconds(start, end));
  }

  /** Two instants of one day are apart by the difference of their times of day. */
  lemma ElapsedSameDay(start: string, end: string)
    requires WellFormed(start) && WellFormed(end) && ParseDate(start) == ParseDate(end)
    ensures ElapsedSeconds(start, end) == SecondsOfDay(ParseTime(end)) - SecondsOfDay(ParseTime(start))
    ensures ElapsedSeconds(start, end) < 86400
  {
    var day := Ordinal(ParseDate(start));
    assert (day - day) * 86400 == 0;
  }

  lemma SmallRemainder(x: int)
    requires 0 <= x < 86400
    ensures x % 86400 == x
  {
  }

  datatype ScheduledTalkFactory = ScheduledTalkFactory(
    categoryFactory: CategoryFactory,
    questionAnswerFactory: QuestionAnswerFactory,
    speakerFactory: SpeakerFactory,
    slotFactory: SlotFactory)
  {
    /** `ScheduledTalkFactory.create`: id, title and description copied, the slot from the start
        time and the room, the duration from start and end; no category, no answers, no
        speakers, no URLs. */
    function Create(session: RawSession): (r: Result<ScheduledTalk>)
      ensures r.Ok? <==> session.roomId in slotFactory.roomIdToName && WellFormed(session.startsAt) && WellFormed(session.endsAt)
      ensures session.roomId !in slotFactory.roomIdToName ==> r == Err(KeyError)
      ensures r.Ok? ==> r.value.talk == Talk(StrId(session.id), session.title, session.description, None, None, [])
      ensures r.Ok? ==> r.value.slideUrl.None? && r.value.recordingUrl.None?
    {
      var slot :- slotFactory.Create(session.startsAt, session.roomId);
      var durationMin :- CalculateDurationMin(session.startsAt, session.endsAt);
      Ok(ScheduledTalk(Talk(StrId(session.id), session.title, session.description, None, None, []), slot, durationMin, None, None))
    }

    /** The slot and the duration are those of the slot factory and `calculate_duration_min`. */
    lemma CreateSlotAndDuration(session: RawSession)
      requires Create(session).Ok?
      ensures Create(session).value.slot == slotFactory.Create(session.startsAt, session.roomId).value
      ensures Create(session).value.durationMin == CalculateDurationMin(session.startsAt, session.endsAt).value
      ensures 0 <= Create(session).value.durationMin <= 1439
    {
    }
  }

  /** `create` never consults the category, answer and speaker factories: two factories that
      share a slot factory make the same talk from every session. */
  lemma CreateIgnoresResolvers(a: ScheduledTalkFactory, b: ScheduledTalkFactory, session: RawSession)
    requires a.slotFactory == b.slotFactory
    ensures a.Create(session) == b.Create(session)
  {
  }
}
