/** The pipeline of `pyconjp_domains/core.py`: from the "All" view of a Sessionize schedule to
    one scheduled talk per session shown in the timetable. */
module Core {
  import opened Wrappers
  import opened Strings
  import opened Sequences
  import opened Timestamps
  import opened Sessionize
  import opened Talks
  import opened SlotNumbering
  import opened Factories

  // ---------------------------------------------------------------------------------------
  // Which sessions are shown, and which of them open a modal.

  /** Titles starting with one of these are breaks and booths, not timetable entries. */
  const ExcludedPrefixes: seq<string> := ["スペシャルブース", "Ask the speaker", "Break"]

  /** The title marks a session of the timetable: it starts with none of the prefixes. */
  predicate Included(title: string) {
    forall i :: 0 <= i < |ExcludedPrefixes| ==> !(ExcludedPrefixes[i] <= title)
  }

  /** `is_included`: the loop over the prefixes returns `False` at the first that the title
      starts with. */
  method IsIncluded(title: string) returns (included: bool)
    ensures included == Included(title)
  {
    for k := 0 to |ExcludedPrefixes|
      invariant forall i :: 0 <= i < k ==> !(ExcludedPrefixes[i] <= title)
    {
      if ExcludedPrefixes[k] <= title {
        return false;
      }
    }
    return true;
  }

  /** A title is excluded exactly when it starts with "スペシャルブース", "Ask the speaker" or
      "Break", letter case included. */
  lemma IncludedPrefixes(title: string)
    ensures Included(title) <==> !("スペシャルブース" <= title) && !("Ask the speaker" <= title) && !("Break" <= title)
  {
    assert ExcludedPrefixes[0] == "スペシャルブース" && ExcludedPrefixes[1] == "Ask the speaker";
    assert ExcludedPrefixes[2] == "Break";
  }

  function KeptSession(s: RawSession): bool {
    Included(s.title)
  }

  /** `filter_sessions`. */
  function FilterSessions(sessions: seq<RawSession>): seq<RawSession> {
    Filter(sessions, KeptSession)
  }

  /** The sessions kept are those with an included title, in their original order. */
  lemma FilterSessionsKeeps(sessions: seq<RawSession>)
    ensures IsSubsequence(FilterSessions(sessions), sessions)
    ensures forall s :: s in FilterSessions(sessions) <==> s in sessions && Included(s.title)
  {
    FilterSubsequence(sessions, KeptSession);
  }

  const VenueOpen := "開場"

  /** A session shown in a modal: every one but the venue opening. */
  function IsModal(s: RawSession): bool {
    !Contains(s.title, VenueOpen)
  }

  /** `_filter_with_modal_sessions`: the generator yields the sessions whose title does not
      contain "開場", in order. */
  method ModalSessions(sessions: seq<RawSession>) returns (modal: seq<RawSession>)
    ensures modal == Filter(sessions, IsModal)
  {
    modal := [];
    var i := |sessions|;
    while i > 0
      invariant 0 <= i <= |sessions|
      invariant modal == Filter(sessions[i..], IsModal)
    {
      i := i - 1;
      assert sessions[i..] == [sessions[i]] + sessions[i + 1..];
      if IsModal(sessions[i]) {
        modal := [sessions[i]] + modal;
      }
    }
  }

  /** The modal sessions keep their order and are exactly those without "開場" in the title. */
  lemma ModalSessionsKeeps(sessions: seq<RawSession>)
    ensures IsSubsequence(Filter(sessions, IsModal), sessions)
    ensures forall s :: s in Filter(sessions, IsModal) <==> s in sessions && !Contains(s.title, VenueOpen)
  {
    FilterSubsequence(sessions, IsModal);
  }

  // ---------------------------------------------------------------------------------------
  // The start times handed to the numbering: `set(s["startsAt"] for s in ...)`.

  /** The distinct start times of the sessions, in order of first occurrence: one way of
      listing the set. */
  function DistinctStarts(sessions: seq<RawSession>): (starts: seq<string>)
    ensures forall s :: s in starts <==> exists i :: 0 <= i < |sessions| && sessions[i].startsAt == s
    ensures forall a, b :: 0 <= a < b < |starts| ==> starts[a] != starts[b]
    decreases |sessions|
  {
    if |sessions| == 0 then []
    else
      var n := |sessions| - 1;
      var init := DistinctStarts(sessions[..n]);
      assert forall i :: 0 <= i < n ==> sessions[..n][i] == sessions[i];
      if sessions[n].startsAt in init then init else init + [sessions[n].startsAt]
  }

  /** A list without repetitions holds each of its members once. */
  lemma {:induction false} DistinctMultiset(xs: seq<string>)
    requires forall a, b :: 0 <= a < b < |xs| ==> xs[a] != xs[b]
    ensures forall x :: multiset(xs)[x] == if x in xs then 1 else 0
    decreases |xs|
  {
    if |xs| > 0 {
      var n := |xs| - 1;
      DistinctMultiset(xs[..n]);
      assert xs == xs[..n] + [xs[n]];
      assert xs[n] !in xs[..n];
    }
  }

  /** The numbers do not depend on how the set is listed. */
  lemma AnyListingOfTheSet(sessions: seq<RawSession>, listing: seq<string>)
    requires forall a, b :: 0 <= a < b < |listing| ==> listing[a] != listing[b]
    requires forall s :: s in listing <==> exists i :: 0 <= i < |sessions| && sessions[i].startsAt == s
    ensures SlotNumbers(listing) == SlotNumbers(DistinctStarts(sessions))
  {
    var starts := DistinctStarts(sessions);
    DistinctMultiset(listing);
    DistinctMultiset(starts);
    assert multiset(listing) == multiset(starts);
    NumbersIgnoreOrder(listing, starts, DateOf);
  }

  // ---------------------------------------------------------------------------------------
  // The dictionaries `create_talks_from_data` builds. Rooms, category items and questions are
  // read as by the factories; speakers become `Speaker` values right away.

  function SpeakerEntries(speakers: seq<RawSpeaker>): seq<(string, Speaker)> {
    seq(|speakers|, i requires 0 <= i < |speakers| => (speakers[i].id, Speaker(speakers[i].fullName, speakers[i].bio)))
  }

  /** `create_speaker_id_map`. */
  function SpeakerMap(speakers: seq<RawSpeaker>): map<string, Speaker> {
    MapFromPairs(SpeakerEntries(speakers))
  }

  /** Looking a speaker up in the dictionary of core.py gives what `SpeakerFactory.create` of
      a factory built from the same records gives. */
  lemma {:induction false} SpeakerMapAgrees(speakers: seq<RawSpeaker>, speakerId: string)
    ensures Lookup(SpeakerMap(speakers), speakerId) == SpeakerFactoryFrom(speakers).Create(speakerId)
    decreases |speakers|
  {
    var a, b := SpeakerEntries(speakers), SpeakerPairs(speakers);
    assert Get(SpeakerMap(speakers), speakerId) == LastValue(a, speakerId);
    assert Get(SpeakerFactoryFrom(speakers).idToRawData, speakerId) == LastValue(b, speakerId);
    if |speakers| > 0 {
      var n := |speakers| - 1;
      SpeakerMapAgrees(speakers[..n], speakerId);
      assert SpeakerEntries(speakers[..n]) == a[..n];
      assert SpeakerPairs(speakers[..n]) == b[..n];
      assert Get(SpeakerMap(speakers[..n]), speakerId) == LastValue(a[..n], speakerId);
      assert Get(SpeakerFactoryFrom(speakers[..n]).idToRawData, speakerId) == LastValue(b[..n], speakerId);
    }
  }

  /** Everything a session is resolved against. */
  datatype Lookups = Lookups(
    roomIdToName: map<int, string>,
    speakerIdToSpeaker: map<string, Speaker>,
    categoryIdToValue: map<int, string>,
    questionValueToId: map<string, int>,
    startToSlotNumber: map<string, int>)

  function PipelineLookups(data: ScheduleData, numbers: map<string, int>): Lookups {
    Lookups(RoomNames(data.rooms), SpeakerMap(data.speakers), ItemNames(data.categories),
      QuestionIds(data.questions), numbers)
  }

  // ---------------------------------------------------------------------------------------
  // One session.

  /** `Slot.create(room_id_name_map[...], startsAt, start_to_slot_number_map.get(startsAt, 0))`. */
  function ResolveSlot(lookups: Lookups, session: RawSession): (r: Result<Slot>)
    ensures r.Ok? <==> session.roomId in lookups.roomIdToName && WellFormed(session.startsAt)
    ensures session.roomId !in lookups.roomIdToName ==> r == Err(KeyError)
  {
    var room :- Lookup(lookups.roomIdToName, session.roomId);
    SlotCreate(room, session.startsAt, Get(lookups.startToSlotNumber, session.startsAt).GetOr(0))
  }

  function CategoryNameOf(m: map<int, string>): int -> Result<string> {
    id => Lookup(m, id)
  }

  /** `Category(*(category_id_value_map[i] for i in categoryItems))`: the names fill the four
      fields by position, so there must be exactly four of them. */
  function ResolveCategory(lookups: Lookups, session: RawSession): (r: Result<Category>)
    ensures r.Ok? <==> (forall i :: 0 <= i < |session.categoryItems| ==> session.categoryItems[i] in lookups.categoryIdToValue)
                       && |session.categoryItems| == 4
    ensures r.Err? && |session.categoryItems| == 4 ==> r.error == KeyError
    ensures r.Ok? ==> r.value == Category(
      Some(lookups.categoryIdToValue[session.categoryItems[0]]), Some(lookups.categoryIdToValue[session.categoryItems[1]]),
      Some(lookups.categoryIdToValue[session.categoryItems[2]]), Some(lookups.categoryIdToValue[session.categoryItems[3]]))
  {
    var f := CategoryNameOf(lookups.categoryIdToValue);
    assert forall id :: f(id) == Lookup(lookups.categoryIdToValue, id);
    var names :- MapResult(session.categoryItems, f);
    if |names| != 4 then Err(TypeError)
    else Ok(Category(Some(names[0]), Some(names[1]), Some(names[2]), Some(names[3])))
  }

  /** `QuestionAnswer(question_id_answer_map[question_value_id_map[label]], ...)`: both
      lookups use `[]`, so an unknown label and an unanswered question both raise `KeyError`. */
  function ResolveAnswers(lookups: Lookups, session: RawSession): (r: Result<QuestionAnswer>)
    ensures r.Err? ==> r.error == KeyError
    ensures !QuestionAnswerFactory(lookups.questionValueToId).KnowsLabels() ==> r == Err(KeyError)
    ensures var ids, byQuestion := lookups.questionValueToId, MapFromPairs(AnswerPairs(session.questionAnswers));
      r.Ok? <==> && QuestionAnswerFactory(ids).KnowsLabels()
                 && ids[ElevatorPitchQuestion] in byQuestion && ids[PriorKnowledgeQuestion] in byQuestion
                 && ids[TakeAwayQuestion] in byQuestion
    ensures var ids, byQuestion := lookups.questionValueToId, MapFromPairs(AnswerPairs(session.questionAnswers));
      r.Ok? ==> r.value == QuestionAnswer(Some(byQuestion[ids[ElevatorPitchQuestion]]),
                                          Some(byQuestion[ids[PriorKnowledgeQuestion]]),
                                          Some(byQuestion[ids[TakeAwayQuestion]]))
  {
    var byQuestion := MapFromPairs(AnswerPairs(session.questionAnswers));
    var pitchId :- Lookup(lookups.questionValueToId, ElevatorPitchQuestion);
    var pitch :- Lookup(byQuestion, pitchId);
    var priorId :- Lookup(lookups.questionValueToId, PriorKnowledgeQuestion);
    var prior :- Lookup(byQuestion, priorId);
    var takeAwayId :- Lookup(lookups.questionValueToId, TakeAwayQuestion);
    var takeAway :- Lookup(byQuestion, takeAwayId);
    Ok(QuestionAnswer(Some(pitch), Some(prior), Some(takeAway)))
  }

  /** Where `QuestionAnswerFactory.create` gives `None` for a question nobody answered, the
      copy in core.py raises `KeyError`; where every question is answered they agree. */
  lemma AnswersStricterThanFactory(lookups: Lookups, session: RawSession)
    requires QuestionAnswerFactory(lookups.questionValueToId).KnowsLabels()
    ensures var factory := QuestionAnswerFactory(lookups.questionValueToId).Create(session.questionAnswers).value;
      && (factory.elevatorPitch.Some? && factory.audiencePriorKnowledge.Some? && factory.audienceTakeAway.Some?
          ==> ResolveAnswers(lookups, session) == Ok(factory))
      && (factory.elevatorPitch.None? || factory.audiencePriorKnowledge.None? || factory.audienceTakeAway.None?
          ==> ResolveAnswers(lookups, session) == Err(KeyError))
  {
  }

  /** A missing answer is fatal: if no answer refers to the question of one of the three
      labels, resolving the answers raises `KeyError`. */
  lemma MissingAnswerRaises(lookups: Lookups, session: RawSession, question: string)
    requires question == ElevatorPitchQuestion || question == PriorKnowledgeQuestion || question == TakeAwayQuestion
    requires question in lookups.questionValueToId
    requires forall i :: 0 <= i < |session.questionAnswers| ==> session.questionAnswers[i].questionId != lookups.questionValueToId[question]
    ensures ResolveAnswers(lookups, session) == Err(KeyError)
  {
    var pairs := AnswerPairs(session.questionAnswers);
    assert lookups.questionValueToId[question] !in KeysOf(pairs);
  }

  function SpeakerOf(m: map<string, Speaker>): string -> Result<Speaker> {
    id => Lookup(m, id)
  }

  /** `[speaker_id_map[speaker_id] for speaker_id in session["speakers"]]`. */
  function ResolveSpeakers(lookups: Lookups, session: RawSession): (r: Result<seq<Speaker>>)
    ensures r.Ok? <==> forall i :: 0 <= i < |session.speakers| ==> session.speakers[i] in lookups.speakerIdToSpeaker
    ensures r.Err? ==> r.error == KeyError
    ensures r.Ok? ==>
      |r.value| == |session.speakers|
      && forall i :: 0 <= i < |session.speakers| ==> r.value[i] == lookups.speakerIdToSpeaker[session.speakers[i]]
  {
    MapResult(session.speakers, SpeakerOf(lookups.speakerIdToSpeaker))
  }

  // The talk of a session as core.py writes it: positional arguments to `ScheduledTalk`.

  /** The fields of `ScheduledTalk` in declaration order; the last two have the default `None`. */
  const ScheduledTalkFields: seq<string> :=
    ["id", "title", "description", "category", "answer", "speakers", "slot", "duration_min", "slide_url", "recording_url"]

  /** The dataclass `__init__` called with positional arguments: fewer than the eight required
      fields or more than all ten is a `TypeError`; otherwise the values of the ten fields in
      declaration order, bound by position, the missing ones defaulting to `None`. */
  function BindScheduledTalk(args: seq<Value>): (r: Result<seq<Value>>)
    ensures r.Ok? <==> 8 <= |args| <= 10
    ensures r.Err? ==> r.error == TypeError
    ensures r.Ok? ==> |r.value| == |ScheduledTalkFields|
    ensures r.Ok? ==> forall i :: 0 <= i < |ScheduledTalkFields| ==> r.value[i] == if i < |args| then args[i] else NoneValue
  {
    if |args| < 8 || |args| > 10 then Err(TypeError)
    else Ok(args + seq(|ScheduledTalkFields| - |args|, _ => NoneValue))
  }

  /** The arguments core.py passes to `ScheduledTalk`: seven for a service session; nine for a
      content session, where the live URL and the recording URL follow the slot. */
  function ScheduledTalkArgs(lookups: Lookups, session: RawSession): (r: Result<seq<Value>>)
    ensures r.Ok? ==> |r.value| == if session.isServiceSession then 7 else 9
    ensures r.Ok? && !session.isServiceSession ==>
      r.value[7] == OptionalText(session.liveUrl) && r.value[8] == OptionalText(session.recordingUrl)
  {
    var slot :- ResolveSlot(lookups, session);
    var head := [IdValue(StrId(session.id)), TextValue(session.title), OptionalText(session.description)];
    if session.isServiceSession then
      Ok(head + [CategoryValue(None), AnswerValue(None), SpeakersValue([]), SlotValue(slot)])
    else
      var category :- ResolveCategory(lookups, session);
      var answer :- ResolveAnswers(lookups, session);
      var speakers :- ResolveSpeakers(lookups, session);
      Ok(head + [CategoryValue(Some(category)), AnswerValue(Some(answer)), SpeakersValue(speakers), SlotValue(slot),
        OptionalText(session.liveUrl), OptionalText(session.recordingUrl)])
  }

  /** The body of the loop of `create_talks_from_data` as written: the field values of the
      `ScheduledTalk` it makes. */
  function CreateTalkAsWritten(lookups: Lookups, session: RawSession): Result<seq<Value>> {
    var args :- ScheduledTalkArgs(lookups, session);
    BindScheduledTalk(args)
  }

  /** As written, a service session whose slot resolves raises `TypeError`: `duration_min` is
      never passed. */
  lemma ServiceSessionRaises(lookups: Lookups, session: RawSession)
    requires session.isServiceSession && ResolveSlot(lookups, session).Ok?
    ensures CreateTalkAsWritten(lookups, session) == Err(TypeError)
  {
  }

  /** As written, a content session binds the live URL to `duration_min`, the recording URL to
      `slide_url`, and leaves `recording_url` `None`. */
  lemma ContentSessionMisbinds(lookups: Lookups, session: RawSession)
    requires !session.isServiceSession && ScheduledTalkArgs(lookups, session).Ok?
    ensures CreateTalkAsWritten(lookups, session).Ok?
    ensures var fields := CreateTalkAsWritten(lookups, session).value;
      && ScheduledTalkFields[7] == "duration_min" && fields[7] == OptionalText(session.liveUrl)
      && ScheduledTalkFields[8] == "slide_url" && fields[8] == OptionalText(session.recordingUrl)
      && ScheduledTalkFields[9] == "recording_url" && fields[9] == NoneValue
  {
  }

  // The talk of a session as it is evidently meant.

  /** A session's talk: the slot; the duration from start to end; for a service session no
      category, answers or speakers; for a content session the resolved ones, with the live URL
      standing in for the slides. */
  function CreateTalk(lookups: Lookups, session: RawSession): Result<ScheduledTalk> {
    var slot :- ResolveSlot(lookups, session);
    var durationMin :- CalculateDurationMin(session.startsAt, session.endsAt);
    if session.isServiceSession then
      Ok(ScheduledTalk(Talk(StrId(session.id), session.title, session.description, None, None, []), slot, durationMin, None, None))
    else
      var category :- ResolveCategory(lookups, session);
      var answer :- ResolveAnswers(lookups, session);
      var speakers :- ResolveSpeakers(lookups, session);
      Ok(ScheduledTalk(Talk(StrId(session.id), session.title, session.description, Some(category), Some(answer), speakers),
        slot, durationMin, session.liveUrl, session.recordingUrl))
  }

  /** What a session's talk holds: id, title and description copied; the slot from the room and
      the start time, numbered from the map or 0; the whole-minute duration; a service session
      has no category, answers, speakers or URLs; a content session has its resolved category,
      answers and speakers in session order, and its URLs. */
  lemma CreateTalkFields(lookups: Lookups, session: RawSession)
    requires CreateTalk(lookups, session).Ok?
    ensures var t := CreateTalk(lookups, session).value;
      && t.talk.id == StrId(session.id) && t.talk.title == session.title && t.talk.description == session.description
      && t.slot.room == lookups.roomIdToName[session.roomId]
      && t.slot.day == ParseDate(session.startsAt) && t.slot.start == ParseTime(session.startsAt)
      && t.slot.number == (if session.startsAt in lookups.startToSlotNumber then lookups.startToSlotNumber[session.startsAt] else 0)
      && t.durationMin == CalculateDurationMin(session.startsAt, session.endsAt).value
      && 0 <= t.durationMin <= 1439
    ensures var t := CreateTalk(lookups, session).value;
      session.isServiceSession ==>
        t.talk.category.None? && t.talk.answer.None? && t.talk.speakers == [] && t.slideUrl.None? && t.recordingUrl.None?
    ensures var t := CreateTalk(lookups, session).value;
      !session.isServiceSession ==>
        && t.talk.category == Some(ResolveCategory(lookups, session).value)
        && t.talk.answer == Some(ResolveAnswers(lookups, session).value)
        && |t.talk.speakers| == |session.speakers|
        && (forall i :: 0 <= i < |session.speakers| ==> t.talk.speakers[i] == lookups.speakerIdToSpeaker[session.speakers[i]])
        && t.slideUrl == session.liveUrl && t.recordingUrl == session.recordingUrl
  {
    CreateTalkSlot(lookups, session);
    if !session.isServiceSession {
      CreateContentTalk(lookups, session);
    }
  }

  /** The slot and the duration of a session's talk. */
  lemma CreateTalkSlot(lookups: Lookups, session: RawSession)
    requires CreateTalk(lookups, session).Ok?
    ensures ResolveSlot(lookups, session).Ok? && CalculateDurationMin(session.startsAt, session.endsAt).Ok?
    ensures CreateTalk(lookups, session).value.slot == ResolveSlot(lookups, session).value
    ensures CreateTalk(lookups, session).value.durationMin == CalculateDurationMin(session.startsAt, session.endsAt).value
    ensures var slot := ResolveSlot(lookups, session).value;
      && slot.room == lookups.roomIdToName[session.roomId]
      && slot.day == ParseDate(session.startsAt) && slot.start == ParseTime(session.startsAt)
      && slot.number == (if session.startsAt in lookups.startToSlotNumber then lookups.startToSlotNumber[session.startsAt] else 0)
  {
  }

  /** The category, answers and speakers of a content session's talk. */
  lemma CreateContentTalk(lookups: Lookups, session: RawSession)
    requires CreateTalk(lookups, session).Ok? && !session.isServiceSession
    ensures ResolveCategory(lookups, session).Ok? && ResolveAnswers(lookups, session).Ok?
    ensures ResolveSpeakers(lookups, session).Ok?
    ensures var t := CreateTalk(lookups, session).value;
      && t.talk.category == Some(ResolveCategory(lookups, session).value)
      && t.talk.answer == Some(ResolveAnswers(lookups, session).value)
      && t.talk.speakers == ResolveSpeakers(lookups, session).value
  {
  }

  /** For a service session the corrected talk is what `ScheduledTalkFactory.create` makes
      with a slot factory over the same rooms and numbers. */
  lemma ServiceTalkMatchesFactory(lookups: Lookups, session: RawSession, factory: ScheduledTalkFactory)
    requires session.isServiceSession
    requires factory.slotFactory == SlotFactoryOf(lookups.roomIdToName, lookups.startToSlotNumber)
    ensures CreateTalk(lookups, session) == factory.Create(session)
  {
  }

  // ---------------------------------------------------------------------------------------
  // The whole pipeline.

  function TalkOf(lookups: Lookups): RawSession -> Result<ScheduledTalk> {
    s => CreateTalk(lookups, s)
  }

  /** The start times that get a number: those of the modal sessions among the kept ones. */
  function NumberedStarts(data: ScheduleData): seq<string> {
    DistinctStarts(Filter(FilterSessions(data.sessions), IsModal))
  }

  /** What `create_talks_from_data` returns: the kept sessions, each made into a talk; a start
      time that is not a timestamp raises `ValueError` before any talk is made. */
  function CreateTalksSpec(data: ScheduleData): Result<seq<ScheduledTalk>> {
    var numbers :- SlotNumbers(NumberedStarts(data));
    MapResult(FilterSessions(data.sessions), TalkOf(PipelineLookups(data, numbers)))
  }

  /** `create_talks_from_data`. */
  method CreateTalksFromData(data: ScheduleData) returns (r: Result<seq<ScheduledTalk>>)
    ensures r == CreateTalksSpec(data)
  {
    var sessions := FilterSessions(data.sessions);
    var modal := ModalSessions(sessions);
    var numbers := NumberStarts(DistinctStarts(modal));
    if numbers.Err? {
      return Err(numbers.error);
    }
    var lookups := PipelineLookups(data, numbers.value);
    var talks: seq<ScheduledTalk> := [];
    for i := 0 to |sessions|
      invariant |talks| == i
      invariant forall j :: 0 <= j < i ==> TalkOf(lookups)(sessions[j]) == Ok(talks[j])
    {
      var talk := CreateTalk(lookups, sessions[i]);
      if talk.Err? {
        MapResultFirstFailure(sessions, TalkOf(lookups), i);
        return Err(talk.error);
      }
      talks := talks + [talk.value];
    }
    MapResultAllSucceed(sessions, TalkOf(lookups), talks);
    return Ok(talks);
  }

  /** One talk per kept session, in the order of the sessions, each the talk of its session. */
  lemma PipelineTalks(data: ScheduleData)
    requires CreateTalksSpec(data).Ok?
    ensures var kept, talks := FilterSessions(data.sessions), CreateTalksSpec(data).value;
      && |talks| == |kept|
      && forall i :: 0 <= i < |kept| ==>
        talks[i] == CreateTalk(PipelineLookups(data, SlotNumbers(NumberedStarts(data)).value), kept[i]).value
  {
  }

  /** A talk's slot number is 0 exactly when no modal session kept in the timetable starts at
      the same time, and otherwise its start time's rank in its day; talks starting at the same
      time get the same number. */
  lemma PipelineSlotNumbers(data: ScheduleData, i: nat, j: nat)
    requires CreateTalksSpec(data).Ok?
    requires i < |FilterSessions(data.sessions)| && j < |FilterSessions(data.sessions)|
    ensures var kept, talks, starts := FilterSessions(data.sessions), CreateTalksSpec(data).value, NumberedStarts(data);
      && (talks[i].slot.number == 0 <==> kept[i].startsAt !in starts)
      && (kept[i].startsAt in starts ==> talks[i].slot.number == Rank(starts, DateOf, kept[i].startsAt))
      && (kept[i].startsAt == kept[j].startsAt ==> talks[i].slot.number == talks[j].slot.number)
  {
    var kept, starts := FilterSessions(data.sessions), NumberedStarts(data);
    var numbers := SlotNumbers(starts).value;
    var lookups := PipelineLookups(data, numbers);
    NumbersAreRanks(starts, DateOf);
    CreateTalkFields(lookups, kept[i]);
    CreateTalkFields(lookups, kept[j]);
    if kept[i].startsAt in starts {
      RankBounds(starts, DateOf, kept[i].startsAt);
    }
  }

  /** A session with "開場" in its title is numbered 0 unless a modal session shown in the
      timetable starts at the same time. */
  lemma VenueOpenIsUnnumbered(data: ScheduleData, i: nat)
    requires CreateTalksSpec(data).Ok?
    requires i < |FilterSessions(data.sessions)| && Contains(FilterSessions(data.sessions)[i].title, VenueOpen)
    requires forall s :: s in FilterSessions(data.sessions) && IsModal(s) ==> s.startsAt != FilterSessions(data.sessions)[i].startsAt
    ensures CreateTalksSpec(data).value[i].slot.number == 0
  {
    var kept := FilterSessions(data.sessions);
    var modal := Filter(kept, IsModal);
    assert forall k :: 0 <= k < |modal| ==> modal[k] in kept && IsModal(modal[k]);
    PipelineSlotNumbers(data, i, i);
  }
}
