/** The parts of the Sessionize API documents the pipeline reads. Each JSON object becomes a
    record with exactly the keys the code looks up; a key the code reads is always present. */
module Sessionize {
  import opened Wrappers

  // ---------------------------------------------------------------------------------------
  // The "All" view: sessions refer to rooms, speakers, category items and questions by id.

  datatype RawSession = RawSession(
    id: string,
    title: string,
    description: Option<string>,
    startsAt: string,
    endsAt: string,
    isServiceSession: bool,
    isPlenumSession: bool,
    speakers: seq<string>,        // speaker ids
    categoryItems: seq<int>,      // category item ids
    questionAnswers: seq<RawAnswer>,
    roomId: int,
    liveUrl: Option<string>,
    recordingUrl: Option<string>)

  datatype RawAnswer = RawAnswer(questionId: int, answerValue: string)

  datatype RawRoom = RawRoom(id: int, name: string)

  datatype RawSpeaker = RawSpeaker(id: string, fullName: string, bio: Option<string>)

  datatype RawCategoryItem = RawCategoryItem(id: int, name: string)

  /** A category group ("Track", "Level", ...) and the items one can choose in it. */
  datatype RawCategoryGroup = RawCategoryGroup(id: int, title: string, items: seq<RawCategoryItem>)

  datatype RawQuestion = RawQuestion(id: int, question: string)

  datatype ScheduleData = ScheduleData(
    sessions: seq<RawSession>,
    rooms: seq<RawRoom>,
    speakers: seq<RawSpeaker>,
    categories: seq<RawCategoryGroup>,
    questions: seq<RawQuestion>)

  // ---------------------------------------------------------------------------------------
  // The nested session list `Talks.from_raw_json` reads: categories and answers inline.

  /** A JSON `id`, which Sessionize sends as a number or as a string of digits. */
  datatype RawId = NumberId(n: int) | TextId(text: string)

  datatype NestedCategoryItem = NestedCategoryItem(name: string)

  datatype NestedCategory = NestedCategory(name: string, categoryItems: seq<NestedCategoryItem>)

  datatype NestedAnswer = NestedAnswer(question: string, answer: Option<string>)

  datatype NestedSpeaker = NestedSpeaker(name: string)

  datatype NestedSession = NestedSession(
    id: RawId,
    title: string,
    description: Option<string>,
    speakers: seq<NestedSpeaker>,
    categories: seq<NestedCategory>,
    questionAnswers: seq<NestedAnswer>)
}
