/** The value model of `pyconjp_domains/talks.py`: speakers, categories, answers, talks and
    their derived properties, slots, and the flattening of the nested session format. */
module Talks {
  import opened Wrappers
  import opened Timestamps
  import opened Sessionize

  // Category group titles and question labels as Sessionize spells them.
  const TrackGroup := "Track"
  const LevelGroup := "Level"
  const LanguageGroup := "Language"
  const SlideLanguageGroup := "発表資料の言語 / Language of presentation material"
  const ElevatorPitchQuestion := "Elevator Pitch"
  const PriorKnowledgeQuestion := "オーディエンスに求める前提知識"
  const TakeAwayQuestion := "オーディエンスが持って帰れる具体的な知識やノウハウ"

  /** A talk id is an `int` (nested format, after `int()`) or the raw `str` (the "All" view). */
  datatype TalkId = IntId(n: int) | StrId(s: string)

  datatype Speaker = Speaker(name: string, profile: Option<string>)

  datatype Category = Category(
    track: Option<string>,
    level: Option<string>,
    speakingLanguage: Option<string>,
    slideLanguage: Option<string>)

  datatype QuestionAnswer = QuestionAnswer(
    elevatorPitch: Option<string>,
    audiencePriorKnowledge: Option<string>,
    audienceTakeAway: Option<string>)

  datatype Talk = Talk(
    id: TalkId,
    title: string,
    description: Option<string>,
    category: Option<Category>,
    answer: Option<QuestionAnswer>,
    speakers: seq<Speaker>)
  {
    // A dataclass instance is always truthy, so `x.f if x else None` is `None` only for `None`.

    function Track(): Option<string> {
      if category.Some? then category.value.track else None
    }

    function Level(): Option<string> {
      if category.Some? then category.value.level else None
    }

    function SpeakingLanguage(): Option<string> {
      if category.Some? then category.value.speakingLanguage else None
    }

    function SlideLanguage(): Option<string> {
      if category.Some? then category.value.slideLanguage else None
    }

    function ElevatorPitch(): Option<string> {
      if answer.Some? then answer.value.elevatorPitch else None
    }

    function PriorKnowledge(): Option<string> {
      if answer.Some? then answer.value.audiencePriorKnowledge else None
    }

    function TakeAway(): Option<string> {
      if answer.Some? then answer.value.audienceTakeAway else None
    }

    /** One name per speaker, in speaker order. */
    function SpeakerNames(): (names: seq<string>)
      ensures |names| == |speakers|
      ensures forall i :: 0 <= i < |speakers| ==> names[i] == speakers[i].name
    {
      seq(|speakers|, i requires 0 <= i < |speakers| => speakers[i].name)
    }

    /** One profile per speaker, in speaker order; a speaker without a profile gives `None`. */
    function SpeakerProfiles(): (profiles: seq<Option<string>>)
      ensures |profiles| == |speakers|
      ensures forall i :: 0 <= i < |speakers| ==> profiles[i] == speakers[i].profile
    {
      seq(|speakers|, i requires 0 <= i < |speakers| => speakers[i].profile)
    }
  }

  /** A room and a start instant, numbered within its day (0 for an unnumbered start). */
  datatype Slot = Slot(room: string, day: Date, start: Time, number: int)

  /** A talk placed in the timetable. */
  datatype ScheduledTalk = ScheduledTalk(
    talk: Talk,
    slot: Slot,
    durationMin: int,
    slideUrl: Option<string>,
    recordingUrl: Option<string>)

  // ---------------------------------------------------------------------------------------
  // `getattr(talk, name)` and `as_list`.

  /** One cell of a row: whatever `getattr` can return for a talk. */
  datatype Value =
    | NoneValue
    | IntValue(i: int)
    | TextValue(s: string)
    | DateValue(d: Date)
    | TimeValue(t: Time)
    | TextList(texts: seq<string>)
    | OptionalTextList(optionalTexts: seq<Option<string>>)
    | CategoryValue(category: Option<Category>)
    | AnswerValue(answer: Option<QuestionAnswer>)
    | SpeakersValue(speakers: seq<Speaker>)
    | SlotValue(slot: Slot)

  function OptionalText(o: Option<string>): Value {
    if o.Some? then TextValue(o.value) else NoneValue
  }

  function IdValue(id: TalkId): Value {
    match id
    case IntId(n) => IntValue(n)
    case StrId(s) => TextValue(s)
  }

  const TalkAttributeNames: set<string> := {
    "id", "title", "description", "category", "answer", "speakers",
    "track", "level", "speaking_language", "slide_language",
    "elevator_pitch", "prior_knowledge", "take_away", "speaker_names", "speaker_profiles"
  }

  const ScheduledAttributeNames: set<string> := TalkAttributeNames + {
    "slot", "duration_min", "slide_url", "recording_url", "room", "day", "start_time", "slot_number"
  }

  /** `getattr(talk, name)` for the data fields and properties of `Talk`. */
  function TalkAttribute(t: Talk, name: string): (r: Result<Value>)
    ensures r.Err? ==> r.error == AttributeError
  {
    if name == "id" then Ok(IdValue(t.id))
    else if name == "title" then Ok(TextValue(t.title))
    else if name == "description" then Ok(OptionalText(t.description))
    else if name == "category" then Ok(CategoryValue(t.category))
    else if name == "answer" then Ok(AnswerValue(t.answer))
    else if name == "speakers" then Ok(SpeakersValue(t.speakers))
    else if name == "track" then Ok(OptionalText(t.Track()))
    else if name == "level" then Ok(OptionalText(t.Level()))
    else if name == "speaking_language" then Ok(OptionalText(t.SpeakingLanguage()))
    else if name == "slide_language" then Ok(OptionalText(t.SlideLanguage()))
    else if name == "elevator_pitch" then Ok(OptionalText(t.ElevatorPitch()))
    else if name == "prior_knowledge" then Ok(OptionalText(t.PriorKnowledge()))
    else if name == "take_away" then Ok(OptionalText(t.TakeAway()))
    else if name == "speaker_names" then Ok(TextList(t.SpeakerNames()))
    else if name == "speaker_profiles" then Ok(OptionalTextList(t.SpeakerProfiles()))
    else Err(AttributeError)
  }

  /** `getattr(scheduled_talk, name)`: the fields and properties `ScheduledTalk` adds, then
      everything it inherits from `Talk`. */
  function ScheduledAttribute(st: ScheduledTalk, name: string): (r: Result<Value>)
    ensures r.Err? ==> r.error == AttributeError
  {
    if name == "slot" then Ok(SlotValue(st.slot))
    else if name == "duration_min" then Ok(IntValue(st.durationMin))
    else if name == "slide_url" then Ok(OptionalText(st.slideUrl))
    else if name == "recording_url" then Ok(OptionalText(st.recordingUrl))
    else if name == "room" then Ok(TextValue(st.slot.room))
    else if name == "day" then Ok(DateValue(st.slot.day))
    else if name == "start_time" then Ok(TimeValue(st.slot.start))
    else if name == "slot_number" then Ok(IntValue(st.slot.number))
    else TalkAttribute(st.talk, name)
  }

  /** `getattr` on a talk succeeds exactly for the names of its fields and properties. */
  lemma TalkAttributeNamesKnown(t: Talk, name: string)
    ensures TalkAttribute(t, name).Ok? <==> name in TalkAttributeNames
  {
  }

  /** `getattr` on a scheduled talk succeeds exactly for the names of its own fields and
      properties and those of `Talk`, and reads the latter as `Talk` does. */
  lemma ScheduledAttributeNamesKnown(st: ScheduledTalk, name: string)
    ensures ScheduledAttribute(st, name).Ok? <==> name in ScheduledAttributeNames
    ensures name in TalkAttributeNames ==> ScheduledAttribute(st, name) == TalkAttribute(st.talk, name)
  {
    TalkAttributeNamesKnown(st.talk, name);
  }

  /** The derived properties of a talk read through to the category, the answers, the speakers
      and the slot, and are `None` when the category or the answers are `None`. */
  lemma DerivedAttributes(st: ScheduledTalk)
    ensures st.talk.category.None? ==>
      forall name :: name in {"track", "level", "speaking_language", "slide_language"} ==>
        ScheduledAttribute(st, name) == Ok(NoneValue)
    ensures st.talk.category.Some? ==>
      && ScheduledAttribute(st, "track") == Ok(OptionalText(st.talk.category.value.track))
      && ScheduledAttribute(st, "level") == Ok(OptionalText(st.talk.category.value.level))
      && ScheduledAttribute(st, "speaking_language") == Ok(OptionalText(st.talk.category.value.speakingLanguage))
      && ScheduledAttribute(st, "slide_language") == Ok(OptionalText(st.talk.category.value.slideLanguage))
    ensures st.talk.answer.None? ==>
      forall name :: name in {"elevator_pitch", "prior_knowledge", "take_away"} ==>
        ScheduledAttribute(st, name) == Ok(NoneValue)
    ensures st.talk.answer.Some? ==>
      && ScheduledAttribute(st, "elevator_pitch") == Ok(OptionalText(st.talk.answer.value.elevatorPitch))
      && ScheduledAttribute(st, "prior_knowledge") == Ok(OptionalText(st.talk.answer.value.audiencePriorKnowledge))
      && ScheduledAttribute(st, "take_away") == Ok(OptionalText(st.talk.answer.value.audienceTakeAway))
    ensures ScheduledAttribute(st, "room") == Ok(TextValue(st.slot.room))
    ensures ScheduledAttribute(st, "day") == Ok(DateValue(st.slot.day))
    ensures ScheduledAttribute(st, "start_time") == Ok(TimeValue(st.slot.start))
    ensures ScheduledAttribute(st, "slot_number") == Ok(IntValue(st.slot.number))
  {
    CategoryAttributes(st);
    AnswerAttributes(st);
  }

  lemma CategoryAttributes(st: ScheduledTalk)
    ensures st.talk.category.None? ==>
      forall name :: name in {"track", "level", "speaking_language", "slide_language"} ==>
        ScheduledAttribute(st, name) == Ok(NoneValue)
    ensures st.talk.category.Some? ==>
      && ScheduledAttribute(st, "track") == Ok(OptionalText(st.talk.category.value.track))
      && ScheduledAttribute(st, "level") == Ok(OptionalText(st.talk.category.value.level))
      && ScheduledAttribute(st, "speaking_language") == Ok(OptionalText(st.talk.category.value.speakingLanguage))
      && ScheduledAttribute(st, "slide_language") == Ok(OptionalText(st.talk.category.value.slideLanguage))
  {
    if st.talk.category.None? {
      NoCategoryAttributes(st);
    } else {
      CategoryValueAttributes(st);
    }
  }

  lemma NoCategoryAttributes(st: ScheduledTalk)
    requires st.talk.category.None?
    ensures ScheduledAttribute(st, "track") == Ok(NoneValue) && ScheduledAttribute(st, "level") == Ok(NoneValue)
    ensures ScheduledAttribute(st, "speaking_language") == Ok(NoneValue)
    ensures ScheduledAttribute(st, "slide_language") == Ok(NoneValue)
  {
  }

  lemma CategoryValueAttributes(st: ScheduledTalk)
    requires st.talk.category.Some?
    ensures ScheduledAttribute(st, "track") == Ok(OptionalText(st.talk.category.value.track))
    ensures ScheduledAttribute(st, "level") == Ok(OptionalText(st.talk.category.value.level))
    ensures ScheduledAttribute(st, "speaking_language") == Ok(OptionalText(st.talk.category.value.speakingLanguage))
    ensures ScheduledAttribute(st, "slide_language") == Ok(OptionalText(st.talk.category.value.slideLanguage))
  {
  }

  lemma AnswerAttributes(st: ScheduledTalk)
    ensures st.talk.answer.None? ==>
      forall name :: name in {"elevator_pitch", "prior_knowledge", "take_away"} ==>
        ScheduledAttribute(st, name) == Ok(NoneValue)
    ensures st.talk.answer.Some? ==>
      && ScheduledAttribute(st, "elevator_pitch") == Ok(OptionalText(st.talk.answer.value.elevatorPitch))
      && ScheduledAttribute(st, "prior_knowledge") == Ok(OptionalText(st.talk.answer.value.audiencePriorKnowledge))
      && ScheduledAttribute(st, "take_away") == Ok(OptionalText(st.talk.answer.value.audienceTakeAway))
  {
    if st.talk.answer.None? {
      NoAnswerAttributes(st);
    } else {
      AnswerValueAttributes(st);
    }
  }

  lemma NoAnswerAttributes(st: ScheduledTalk)
    requires st.talk.answer.None?
    ensures ScheduledAttribute(st, "elevator_pitch") == Ok(NoneValue)
    ensures ScheduledAttribute(st, "prior_knowledge") == Ok(NoneValue)
    ensures ScheduledAttribute(st, "take_away") == Ok(NoneValue)
  {
  }

  lemma AnswerValueAttributes(st: ScheduledTalk)
    requires st.talk.answer.Some?
    ensures ScheduledAttribute(st, "elevator_pitch") == Ok(OptionalText(st.talk.answer.value.elevatorPitch))
    ensures ScheduledAttribute(st, "prior_knowledge") == Ok(OptionalText(st.talk.answer.value.audiencePriorKnowledge))
    ensures ScheduledAttribute(st, "take_away") == Ok(OptionalText(st.talk.answer.value.audienceTakeAway))
  {
  }

  /** `[getattr(obj, field) for field in fields]`, where `attribute` is `getattr(obj, _)`: one
      value per field, in field order; the first unknown field raises. */
  function AsList(attribute: string -> Result<Value>, fields: seq<string>): (r: Result<seq<Value>>)
    ensures r.Ok? <==> forall i :: 0 <= i < |fields| ==> attribute(fields[i]).Ok?
    ensures r.Ok? ==> |r.value| == |fields|
    ensures r.Ok? ==> forall i :: 0 <= i < |fields| ==> r.value[i] == attribute(fields[i]).value
    ensures r.Err? ==> exists i :: 0 <= i < |fields| && attribute(fields[i]) == Err(r.error)
    decreases |fields|
  {
    if |fields| == 0 then Ok([])
    else
      var first :- attribute(fields[0]);
      var rest :- AsList(attribute, fields[1..]);
      Ok([first] + rest)
  }

  // ---------------------------------------------------------------------------------------
  // `Slot.create` and the `SlotFactory` of talks.py.

  /** `Slot.create`: parse the start timestamp and keep room and number. */
  function SlotCreate(room: string, startsAt: string, number: int): (r: Result<Slot>)
    ensures r.Ok? <==> WellFormed(startsAt)
    ensures r.Err? ==> r.error == ValueError
    ensures r.Ok? ==> r.value.room == room && r.value.number == number
    ensures r.Ok? ==> r.value.day == ParseDate(startsAt) && r.value.start == ParseTime(startsAt)
  {
    if WellFormed(startsAt) then Ok(Slot(room, ParseDate(startsAt), ParseTime(startsAt), number))
    else Err(ValueError)
  }

  /** Slots made from two timestamps are ordered by (day, start) exactly as the timestamp
      strings are ordered, and equal (day, start) means the same timestamp. */
  lemma SlotCreateOrder(room: string, a: string, b: string, m: int, n: int)
    requires SlotCreate(room, a, m).Ok? && SlotCreate(room, b, n).Ok?
    ensures var sa, sb := SlotCreate(room, a, m).value, SlotCreate(room, b, n).value;
      && (Strings.LexLess(a, b) <==> InstantLess(sa.day, sa.start, sb.day, sb.start))
      && (sa.day == sb.day && sa.start == sb.start <==> a == b)
  {
    LexOrderIsChronological(a, b);
    if ParseDate(a) == ParseDate(b) && ParseTime(a) == ParseTime(b) {
      ParseInjective(a, b);
    }
  }

  /** The `SlotFactory` of talks.py: room and slot number are both looked up with `[]`. */
  datatype SlotFactory = SlotFactory(roomIdToName: map<int, string>, startToSlotNumber: map<string, int>) {
    function Create(startsAt: string, roomId: int): (r: Result<Slot>)
      ensures r.Ok? <==> roomId in roomIdToName && startsAt in startToSlotNumber && WellFormed(startsAt)
      ensures roomId !in roomIdToName ==> r == Err(KeyError)
      ensures roomId in roomIdToName && startsAt !in startToSlotNumber ==> r == Err(KeyError)
      ensures r.Ok? ==>
        r.value == Slot(roomIdToName[roomId], ParseDate(startsAt), ParseTime(startsAt), startToSlotNumber[startsAt])
    {
      var room :- Lookup(roomIdToName, roomId);
      var number :- Lookup(startToSlotNumber, startsAt);
      SlotCreate(room, startsAt, number)
    }
  }

  // ---------------------------------------------------------------------------------------
  // `Category.flatten_raw_json` and `QuestionAnswer.flatten_raw_json` (nested format).

  predicate IsRecognisedGroup(name: string) {
    name == TrackGroup || name == LevelGroup || name == LanguageGroup || name == SlideLanguageGroup
  }

  predicate HasGroup(categories: seq<NestedCategory>, name: string) {
    exists i :: 0 <= i < |categories| && categories[i].name == name
  }

  /** The last category called `name`. */
  function LastNamed(categories: seq<NestedCategory>, name: string): (r: Option<NestedCategory>)
    ensures r.Some? <==> HasGroup(categories, name)
    ensures r.Some? ==> r.value in categories && r.value.name == name
    decreases |categories|
  {
    if |categories| == 0 then None
    else if categories[|categories| - 1].name == name then Some(categories[|categories| - 1])
    else
      var r := LastNamed(categories[..|categories| - 1], name);
      assert HasGroup(categories, name) ==> HasGroup(categories[..|categories| - 1], name);
      r
  }

  /** `get_single_choice_category_value` never fails on a recognised group: each has an item. */
  predicate ChoicesPresent(categories: seq<NestedCategory>) {
    forall i :: 0 <= i < |categories| && IsRecognisedGroup(categories[i].name) ==> |categories[i].categoryItems| > 0
  }

  /** The first item name of the last category called `name`, if there is one with an item. */
  function GroupChoice(categories: seq<NestedCategory>, name: string): Option<string> {
    var c := LastNamed(categories, name);
    if c.Some? && |c.value.categoryItems| > 0 then Some(c.value.categoryItems[0].name) else None
  }

  /** What `Category.flatten_raw_json` computes: an `IndexError` if a recognised group has no
      item, an `UnboundLocalError` if one of the four groups never occurs, and otherwise the
      first item of the last category of each group. */
  function FlattenCategoriesSpec(categories: seq<NestedCategory>): Result<Category> {
    if !ChoicesPresent(categories) then Err(IndexError)
    else if !HasGroup(categories, TrackGroup) || !HasGroup(categories, LevelGroup)
         || !HasGroup(categories, LanguageGroup) || !HasGroup(categories, SlideLanguageGroup)
    then Err(UnboundLocalError)
    else Ok(Category(
      GroupChoice(categories, TrackGroup), GroupChoice(categories, LevelGroup),
      GroupChoice(categories, LanguageGroup), GroupChoice(categories, SlideLanguageGroup)))
  }

  /** One more category: it becomes the choice of its own group and of no other. */
  lemma GroupChoiceStep(categories: seq<NestedCategory>, category: NestedCategory, name: string)
    ensures HasGroup(categories + [category], name) <==> HasGroup(categories, name) || category.name == name
    ensures GroupChoice(categories + [category], name) ==
      if category.name != name then GroupChoice(categories, name)
      else if |category.categoryItems| > 0 then Some(category.categoryItems[0].name)
      else None
  {
    var all := categories + [category];
    assert all[..|all| - 1] == categories && all[|all| - 1] == category;
    if HasGroup(categories, name) {
      var i :| 0 <= i < |categories| && categories[i].name == name;
      assert all[i] == categories[i];
    }
  }

  /** One more category keeps every recognised group non-empty when it is one of them with an item
      or not one of them. */
  lemma ChoicesPresentStep(categories: seq<NestedCategory>, category: NestedCategory)
    ensures ChoicesPresent(categories + [category]) <==>
      ChoicesPresent(categories) && (IsRecognisedGroup(category.name) ==> |category.categoryItems| > 0)
  {
    var all := categories + [category];
    assert all[|all| - 1] == category;
    assert forall i :: 0 <= i < |categories| ==> all[i] == categories[i];
  }

  /** When every recognised group has an item, such a group has a choice exactly when it occurs. */
  lemma ChoiceOfPresentGroup(categories: seq<NestedCategory>, name: string)
    requires ChoicesPresent(categories) && IsRecognisedGroup(name)
    ensures GroupChoice(categories, name).Some? <==> HasGroup(categories, name)
  {
    var c := LastNamed(categories, name);
    if c.Some? {
      var i :| 0 <= i < |categories| && categories[i] == c.value;
    }
  }

  /** `Category.flatten_raw_json` followed by `Category(**...)`. */
  method FlattenCategories(categories: seq<NestedCategory>) returns (r: Result<Category>)
    ensures r == FlattenCategoriesSpec(categories)
    ensures r.Ok? <==> (ChoicesPresent(categories) && HasGroup(categories, TrackGroup) && HasGroup(categories, LevelGroup)
      && HasGroup(categories, LanguageGroup) && HasGroup(categories, SlideLanguageGroup))
    ensures r.Ok? ==> r.value.track.Some? && r.value.level.Some? && r.value.speakingLanguage.Some? && r.value.slideLanguage.Some?
  {
    var track, level, speakingLanguage, slideLanguage := None, None, None, None;
    var i := 0;
    while i < |categories|
      invariant 0 <= i <= |categories|
      invariant ChoicesPresent(categories[..i])
      invariant track == GroupChoice(categories[..i], TrackGroup)
      invariant level == GroupChoice(categories[..i], LevelGroup)
      invariant speakingLanguage == GroupChoice(categories[..i], LanguageGroup)
      invariant slideLanguage == GroupChoice(categories[..i], SlideLanguageGroup)
    {
      var category := categories[i];
      if IsRecognisedGroup(category.name) && |category.categoryItems| == 0 {
        assert !ChoicesPresent(categories);
        return Err(IndexError);
      }
      assert categories[..i + 1] == categories[..i] + [category];
      ChoicesPresentStep(categories[..i], category);
      GroupChoiceStep(categories[..i], category, TrackGroup);
      GroupChoiceStep(categories[..i], category, LevelGroup);
      GroupChoiceStep(categories[..i], category, LanguageGroup);
      GroupChoiceStep(categories[..i], category, SlideLanguageGroup);
      if category.name == TrackGroup {
        track := Some(category.categoryItems[0].name);
      } else if category.name == LevelGroup {
        level := Some(category.categoryItems[0].name);
      } else if category.name == LanguageGroup {
        speakingLanguage := Some(category.categoryItems[0].name);
      } else if category.name == SlideLanguageGroup {
        slideLanguage := Some(category.categoryItems[0].name);
      }
      i := i + 1;
    }
    assert categories[..i] == categories;
    ChoiceOfPresentGroup(categories, TrackGroup);
    ChoiceOfPresentGroup(categories, LevelGroup);
    ChoiceOfPresentGroup(categories, LanguageGroup);
    ChoiceOfPresentGroup(categories, SlideLanguageGroup);
    if track.None? || level.None? || speakingLanguage.None? || slideLanguage.None? {
      return Err(UnboundLocalError);
    }
    return Ok(Category(track, level, speakingLanguage, slideLanguage));
  }

  predicate HasQuestion(questionAnswers: seq<NestedAnswer>, question: string) {
    exists i :: 0 <= i < |questionAnswers| && questionAnswers[i].question == question
  }

  /** The last answer to `question`. */
  function LastAnswered(questionAnswers: seq<NestedAnswer>, question: string): (r: Option<NestedAnswer>)
    ensures r.Some? <==> HasQuestion(questionAnswers, question)
    ensures r.Some? ==> r.value in questionAnswers && r.value.question == question
    decreases |questionAnswers|
  {
    if |questionAnswers| == 0 then None
    else if questionAnswers[|questionAnswers| - 1].question == question then Some(questionAnswers[|questionAnswers| - 1])
    else
      var r := LastAnswered(questionAnswers[..|questionAnswers| - 1], question);
      assert HasQuestion(questionAnswers, question) ==> HasQuestion(questionAnswers[..|questionAnswers| - 1], question);
      r
  }

  /** What `QuestionAnswer.flatten_raw_json` computes: an `UnboundLocalError` if one of the three
      questions is never answered, and otherwise the last answer to each. */
  function FlattenQuestionAnswersSpec(questionAnswers: seq<NestedAnswer>): Result<QuestionAnswer> {
    var pitch := LastAnswered(questionAnswers, ElevatorPitchQuestion);
    var prior := LastAnswered(questionAnswers, PriorKnowledgeQuestion);
    var takeAway := LastAnswered(questionAnswers, TakeAwayQuestion);
    if pitch.None? || prior.None? || takeAway.None? then Err(UnboundLocalError)
    else Ok(QuestionAnswer(pitch.value.answer, prior.value.answer, takeAway.value.answer))
  }

  /** `QuestionAnswer.flatten_raw_json` followed by `QuestionAnswer(**...)`. */
  method FlattenQuestionAnswers(questionAnswers: seq<NestedAnswer>) returns (r: Result<QuestionAnswer>)
    ensures r == FlattenQuestionAnswersSpec(questionAnswers)
    ensures r.Ok? <==> (HasQuestion(questionAnswers, ElevatorPitchQuestion)
      && HasQuestion(questionAnswers, PriorKnowledgeQuestion) && HasQuestion(questionAnswers, TakeAwayQuestion))
  {
    var pitch, prior, takeAway := None, None, None;
    var i := 0;
    while i < |questionAnswers|
      invariant 0 <= i <= |questionAnswers|
      invariant pitch == LastAnswered(questionAnswers[..i], ElevatorPitchQuestion)
      invariant prior == LastAnswered(questionAnswers[..i], PriorKnowledgeQuestion)
      invariant takeAway == LastAnswered(questionAnswers[..i], TakeAwayQuestion)
    {
      var qa := questionAnswers[i];
      if qa.question == ElevatorPitchQuestion {
        pitch := Some(qa);
      } else if qa.question == PriorKnowledgeQuestion {
        prior := Some(qa);
      } else if qa.question == TakeAwayQuestion {
        takeAway := Some(qa);
      }
      assert questionAnswers[..i + 1][..i] == questionAnswers[..i];
      i := i + 1;
    }
    assert questionAnswers[..i] == questionAnswers;
    if pitch.None? || prior.None? || takeAway.None? {
      return Err(UnboundLocalError);
    }
    return Ok(QuestionAnswer(pitch.value.answer, prior.value.answer, takeAway.value.answer));
  }
}
