/** The collections of `pyconjp_domains/talks.py`: `Talks` (built from the nested format,
    filtered by a search request, sliced) and `ScheduledTalks` (sorted into timetable order).
    Both wrap a list, so a collection is modelled by its sequence of talks. */
module TalkCollections {
  import opened Wrappers
  import opened Strings
  import opened Sequences
  import opened Timestamps
  import opened Sessionize
  import opened Talks

  // ---------------------------------------------------------------------------------------
  // `int(session["id"])`.

  /** A decimal integer literal: digits, optionally after one sign. */
  predicate IsIntegerText(s: string) {
    || (|s| > 0 && AllDigits(s))
    || (|s| > 1 && (s[0] == '-' || s[0] == '+') && AllDigits(s[1..]))
  }

  /** `int(x)` for a JSON number or a JSON string. */
  function IntOf(id: RawId): (r: Result<int>)
    ensures id.NumberId? ==> r == Ok(id.n)
    ensures id.TextId? ==> (r.Ok? <==> IsIntegerText(id.text))
    ensures r.Err? ==> r.error == ValueError
  {
    match id
    case NumberId(n) => Ok(n)
    case TextId(s) =>
      if |s| > 0 && AllDigits(s) then Ok(DecimalValue(s))
      else if |s| > 1 && s[0] == '-' && AllDigits(s[1..]) then Ok(-(DecimalValue(s[1..]) as int))
      else if |s| > 1 && s[0] == '+' && AllDigits(s[1..]) then Ok(DecimalValue(s[1..]))
      else Err(ValueError)
  }

  /** `str(n)` for a non-negative `n`. */
  function DecimalText(n: nat): (s: string)
    ensures |s| > 0 && AllDigits(s) && DecimalValue(s) == n
  {
    if n < 10 then [Digit(n)]
    else
      var s := DecimalText(n / 10) + [Digit(n % 10)];
      assert s[..|s| - 1] == DecimalText(n / 10);
      s
  }

  /** `int(str(n)) == n`: an id sent as the text of a number reads back as that number. */
  lemma IntOfDecimalText(n: int)
    ensures IntOf(TextId(if n >= 0 then DecimalText(n) else "-" + DecimalText(-n))) == Ok(n)
  {
    if n < 0 {
      var s := "-" + DecimalText(-n);
      assert s[1..] == DecimalText(-n);
      assert !IsDigit(s[0]);
    }
  }

  // ---------------------------------------------------------------------------------------
  // `Talks.from_raw_json`.

  /** `[Speaker(speaker["name"]) for speaker in session["speakers"]]`. */
  function NestedSpeakers(speakers: seq<NestedSpeaker>): (r: seq<Speaker>)
    ensures |r| == |speakers|
    ensures forall i :: 0 <= i < |speakers| ==> r[i] == Speaker(speakers[i].name, None)
  {
    seq(|speakers|, i requires 0 <= i < |speakers| => Speaker(speakers[i].name, None))
  }

  /** The talk one nested session becomes; the category is flattened first, then the answers,
      then the id is converted. */
  function NestedTalk(session: NestedSession): Result<Talk> {
    var category :- FlattenCategoriesSpec(session.categories);
    var answer :- FlattenQuestionAnswersSpec(session.questionAnswers);
    var id :- IntOf(session.id);
    Ok(Talk(IntId(id), session.title, session.description, Some(category), Some(answer), NestedSpeakers(session.speakers)))
  }

  function IdKey(t: Talk): int {
    if t.id.IntId? then t.id.n else 0
  }

  /** The order of `sorted(talks, key=lambda t: t.id)`. */
  predicate IdLe(a: Talk, b: Talk) {
    IdKey(a) <= IdKey(b)
  }

  /** What `Talks.from_raw_json` computes: one talk per session, then a stable sort by id. */
  function FromRawJsonSpec(data: seq<NestedSession>): Result<seq<Talk>> {
    var talks :- MapResult(data, NestedTalk);
    Ok(SortBy(talks, IdLe))
  }

  /** The body of the loop of `Talks.from_raw_json`: one session becomes one talk. */
  method ConvertSession(session: NestedSession) returns (r: Result<Talk>)
    ensures r == NestedTalk(session)
  {
    var speakers := NestedSpeakers(session.speakers);
    var category := FlattenCategories(session.categories);
    if category.Err? {
      return Err(category.error);
    }
    var answer := FlattenQuestionAnswers(session.questionAnswers);
    if answer.Err? {
      return Err(answer.error);
    }
    var id := IntOf(session.id);
    if id.Err? {
      return Err(id.error);
    }
    return Ok(Talk(IntId(id.value), session.title, session.description, Some(category.value), Some(answer.value), speakers));
  }

  /** `Talks.from_raw_json`: append one talk per session, then sort by id. */
  method FromRawJson(data: seq<NestedSession>) returns (r: Result<seq<Talk>>)
    ensures r == FromRawJsonSpec(data)
  {
    var talks: seq<Talk> := [];
    var i := 0;
    while i < |data|
      invariant 0 <= i <= |data| && |talks| == i
      invariant forall j :: 0 <= j < i ==> NestedTalk(data[j]) == Ok(talks[j])
    {
      var talk := ConvertSession(data[i]);
      if talk.Err? {
        MapResultFirstFailure(data, NestedTalk, i);
        return Err(talk.error);
      }
      talks := talks + [talk.value];
      i := i + 1;
    }
    MapResultAllSucceed(data, NestedTalk, talks);
    return Ok(SortBy(talks, IdLe));
  }

  lemma IdLeTotalPreorder()
    ensures TotalPreorder(IdLe)
  {
  }

  /** `from_raw_json` succeeds exactly when every session converts, and then gives one talk per
      session: the talks of the sessions, reordered. */
  lemma FromRawJsonTalks(data: seq<NestedSession>)
    ensures FromRawJsonSpec(data).Ok? <==> forall i :: 0 <= i < |data| ==> NestedTalk(data[i]).Ok?
    ensures FromRawJsonSpec(data).Ok? ==>
      && |FromRawJsonSpec(data).value| == |data|
      && multiset(FromRawJsonSpec(data).value) == multiset(MapResult(data, NestedTalk).value)
      && forall i :: 0 <= i < |data| ==> MapResult(data, NestedTalk).value[i] == NestedTalk(data[i]).value
  {
  }

  /** A talk as the nested format makes it: an integer id and speakers without a profile. */
  predicate NestedShape(t: Talk) {
    t.id.IntId? && forall s :: s in t.speakers ==> s.profile == None
  }

  lemma NestedTalkShape(session: NestedSession)
    requires NestedTalk(session).Ok?
    ensures NestedShape(NestedTalk(session).value)
  {
  }

  /** Every talk of `from_raw_json` has an integer id and speakers without a profile. */
  lemma FromRawJsonIds(data: seq<NestedSession>)
    requires FromRawJsonSpec(data).Ok?
    ensures forall t :: t in FromRawJsonSpec(data).value ==> NestedShape(t)
  {
    var talks := MapResult(data, NestedTalk).value;
    forall i | 0 <= i < |talks| ensures NestedShape(talks[i]) {
      NestedTalkShape(data[i]);
    }
    forall t | t in FromRawJsonSpec(data).value ensures NestedShape(t) {
      assert t in multiset(SortBy(talks, IdLe));
      assert t in talks;
    }
  }

  /** The talks of `from_raw_json` are in ascending order of id, and talks with equal ids keep
      the order of their sessions. */
  lemma FromRawJsonOrder(data: seq<NestedSession>)
    requires FromRawJsonSpec(data).Ok?
    ensures var r := FromRawJsonSpec(data).value;
      forall i, j :: 0 <= i < j < |r| ==> IdKey(r[i]) <= IdKey(r[j])
    ensures forall x :: SameKey(FromRawJsonSpec(data).value, x, IdLe) == SameKey(MapResult(data, NestedTalk).value, x, IdLe)
  {
    var talks := MapResult(data, NestedTalk).value;
    IdLeTotalPreorder();
    SortBySorted(talks, IdLe);
    forall x ensures SameKey(SortBy(talks, IdLe), x, IdLe) == SameKey(talks, x, IdLe) {
      SortByStable(talks, x, IdLe);
    }
  }

  // ---------------------------------------------------------------------------------------
  // `Talks.filter_by`.

  /** The search request: each criterion is ignored when it is empty (or false). */
  datatype FilterRequest = FilterRequest(
    tracks: seq<string>,
    levels: seq<string>,
    keywords: seq<string>,
    isEnglishOnly: bool)

  /** `t.category.track in tracks`; `t.category` being `None` raises. */
  function TrackTest(tracks: seq<string>): Talk -> Result<bool> {
    (t: Talk) => if t.category.None? then Err(AttributeError)
         else Ok(t.category.value.track.Some? && t.category.value.track.value in tracks)
  }

  /** `t.category.level in levels`. */
  function LevelTest(levels: seq<string>): Talk -> Result<bool> {
    (t: Talk) => if t.category.None? then Err(AttributeError)
         else Ok(t.category.value.level.Some? && t.category.value.level.value in levels)
  }

  /** `"\n".join([title, pitch, prior knowledge, take-away]).lower()`: reading the answers of a
      talk without answers raises `AttributeError`; joining a `None` answer raises `TypeError`. */
  function SearchText(t: Talk): (r: Result<string>)
    ensures r.Ok? <==> (t.answer.Some? && t.answer.value.elevatorPitch.Some?
      && t.answer.value.audiencePriorKnowledge.Some? && t.answer.value.audienceTakeAway.Some?)
  {
    if t.answer.None? then Err(AttributeError)
    else
      var a := t.answer.value;
      if a.elevatorPitch.None? || a.audiencePriorKnowledge.None? || a.audienceTakeAway.None? then Err(TypeError)
      else Ok(Lower(Join([t.title, a.elevatorPitch.value, a.audiencePriorKnowledge.value, a.audienceTakeAway.value], "\n")))
  }

  /** `keyword in text`, as written: the text is lower-cased, the keyword is not. */
  function KeywordTest(keyword: string): Talk -> Result<bool> {
    (t: Talk) => var text :- SearchText(t); Ok(Contains(text, keyword))
  }

  /** `t.category.speaking_language == "English" or t.category.slide_language != "Japanese only"`. */
  function EnglishTest(): Talk -> Result<bool> {
    (t: Talk) => if t.category.None? then Err(AttributeError)
         else Ok(t.category.value.speakingLanguage == Some("English") || t.category.value.slideLanguage != Some("Japanese only"))
  }

  /** One filtering pass per keyword, in keyword order (an AND search). */
  function KeywordStages(talks: seq<Talk>, keywords: seq<string>): Result<seq<Talk>>
    decreases |keywords|
  {
    if |keywords| == 0 then Ok(talks)
    else
      var kept :- FilterResult(talks, KeywordTest(keywords[0]));
      KeywordStages(kept, keywords[1..])
  }

  /** What `filter_by` computes: tracks, then levels, then each keyword, then English-only;
      a criterion that is empty is skipped, and the first talk that raises aborts. */
  function FilterBySpec(talks: seq<Talk>, request: FilterRequest): Result<seq<Talk>> {
    var byTrack :- if |request.tracks| > 0 then FilterResult(talks, TrackTest(request.tracks)) else Ok(talks);
    var byLevel :- if |request.levels| > 0 then FilterResult(byTrack, LevelTest(request.levels)) else Ok(byTrack);
    var byKeyword :- KeywordStages(byLevel, request.keywords);
    if request.isEnglishOnly then FilterResult(byKeyword, EnglishTest()) else Ok(byKeyword)
  }

  /** `Talks.filter_by`: rebinds the list once per criterion and once per keyword. */
  method FilterBy(talks: seq<Talk>, request: FilterRequest) returns (r: Result<seq<Talk>>)
    ensures r == FilterBySpec(talks, request)
  {
    var current := talks;
    if |request.tracks| > 0 {
      var kept := FilterResult(current, TrackTest(request.tracks));
      if kept.Err? {
        return Err(kept.error);
      }
      current := kept.value;
    }
    if |request.levels| > 0 {
      var kept := FilterResult(current, LevelTest(request.levels));
      if kept.Err? {
        return Err(kept.error);
      }
      current := kept.value;
    }
    ghost var byLevel := current;
    var i := 0;
    while i < |request.keywords|
      invariant 0 <= i <= |request.keywords|
      invariant KeywordStages(byLevel, request.keywords) == KeywordStages(current, request.keywords[i..])
    {
      var kept := FilterResult(current, KeywordTest(request.keywords[i]));
      assert request.keywords[i..][1..] == request.keywords[i + 1..];
      if kept.Err? {
        return Err(kept.error);
      }
      current := kept.value;
      i := i + 1;
    }
    assert request.keywords[i..] == [];
    if request.isEnglishOnly {
      var kept := FilterResult(current, EnglishTest());
      if kept.Err? {
        return Err(kept.error);
      }
      current := kept.value;
    }
    return Ok(current);
  }

  /** A stage of `filter_by` that is skipped or filters keeps a subsequence. */
  lemma StageSubsequence(talks: seq<Talk>, active: bool, test: Talk -> Result<bool>)
    requires (if active then FilterResult(talks, test) else Ok(talks)).Ok?
    ensures IsSubsequence((if active then FilterResult(talks, test) else Ok(talks)).value, talks)
  {
    if active {
      FilterSubsequence(talks, t => test(t) == Ok(true));
    } else {
      IsSubsequenceReflexive(talks);
    }
  }

  lemma {:induction false} KeywordStagesSubsequence(talks: seq<Talk>, keywords: seq<string>)
    requires KeywordStages(talks, keywords).Ok?
    ensures IsSubsequence(KeywordStages(talks, keywords).value, talks)
    decreases |keywords|
  {
    if |keywords| == 0 {
      IsSubsequenceReflexive(talks);
    } else {
      var kept := FilterResult(talks, KeywordTest(keywords[0])).value;
      StageSubsequence(talks, true, KeywordTest(keywords[0]));
      KeywordStagesSubsequence(kept, keywords[1..]);
      IsSubsequenceTransitive(KeywordStages(talks, keywords).value, kept, talks);
    }
  }

  /** Filtering keeps a subsequence: no talk is added, duplicated or reordered. */
  lemma FilterBySubsequence(talks: seq<Talk>, request: FilterRequest)
    requires FilterBySpec(talks, request).Ok?
    ensures IsSubsequence(FilterBySpec(talks, request).value, talks)
  {
    var byTrack := (if |request.tracks| > 0 then FilterResult(talks, TrackTest(request.tracks)) else Ok(talks)).value;
    var byLevel := (if |request.levels| > 0 then FilterResult(byTrack, LevelTest(request.levels)) else Ok(byTrack)).value;
    var byKeyword := KeywordStages(byLevel, request.keywords).value;
    var r := FilterBySpec(talks, request).value;
    StageSubsequence(talks, |request.tracks| > 0, TrackTest(request.tracks));
    StageSubsequence(byTrack, |request.levels| > 0, LevelTest(request.levels));
    KeywordStagesSubsequence(byLevel, request.keywords);
    StageSubsequence(byKeyword, request.isEnglishOnly, EnglishTest());
    IsSubsequenceTransitive(byLevel, byTrack, talks);
    IsSubsequenceTransitive(byKeyword, byLevel, talks);
    IsSubsequenceTransitive(r, byKeyword, talks);
  }

  /** A request with no criterion returns every talk, in order. */
  lemma FilterByEmptyRequest(talks: seq<Talk>)
    ensures FilterBySpec(talks, FilterRequest([], [], [], false)) == Ok(talks)
  {
  }

  /** A talk that every criterion can inspect: it has a category and all three answers. */
  predicate Searchable(t: Talk) {
    t.category.Some? && SearchText(t).Ok?
  }

  predicate TrackMatches(t: Talk, tracks: seq<string>) {
    |tracks| == 0 || (t.Track().Some? && t.Track().value in tracks)
  }

  predicate LevelMatches(t: Talk, levels: seq<string>) {
    |levels| == 0 || (t.Level().Some? && t.Level().value in levels)
  }

  /** The talk's search text contains every keyword. */
  predicate KeywordsMatch(t: Talk, keywords: seq<string>)
    decreases |keywords|
  {
    |keywords| == 0 || (SearchText(t).Ok? && Contains(SearchText(t).value, keywords[0]) && KeywordsMatch(t, keywords[1..]))
  }

  predicate EnglishMatches(t: Talk, isEnglishOnly: bool) {
    !isEnglishOnly || t.SpeakingLanguage() == Some("English") || t.SlideLanguage() != Some("Japanese only")
  }

  /** The talk meets every non-empty criterion of the request. */
  predicate Matches(t: Talk, request: FilterRequest) {
    && TrackMatches(t, request.tracks)
    && LevelMatches(t, request.levels)
    && KeywordsMatch(t, request.keywords)
    && EnglishMatches(t, request.isEnglishOnly)
  }

  /** The keyword criterion is an AND search: every keyword must occur. */
  lemma {:induction false} KeywordsMatchAll(t: Talk, keywords: seq<string>)
    requires SearchText(t).Ok?
    ensures KeywordsMatch(t, keywords) <==> forall k :: k in keywords ==> Contains(SearchText(t).value, k)
    decreases |keywords|
  {
    if |keywords| > 0 {
      var text := SearchText(t).value;
      KeywordsMatchAll(t, keywords[1..]);
      if forall k :: k in keywords ==> Contains(text, k) {
        assert keywords[0] in keywords;
        forall k | k in keywords[1..] ensures Contains(text, k) {
          assert k in keywords;
        }
      }
      if KeywordsMatch(t, keywords) {
        forall k | k in keywords ensures Contains(text, k) {
          if k != keywords[0] {
            assert k in keywords[1..];
          }
        }
      }
    }
  }

  function TrackFilter(tracks: seq<string>): Talk -> bool {
    t => TrackMatches(t, tracks)
  }

  function LevelFilter(levels: seq<string>): Talk -> bool {
    t => LevelMatches(t, levels)
  }

  function KeywordsFilter(keywords: seq<string>): Talk -> bool {
    t => KeywordsMatch(t, keywords)
  }

  function EnglishFilter(isEnglishOnly: bool): Talk -> bool {
    t => EnglishMatches(t, isEnglishOnly)
  }

  function UpToLevelFilter(request: FilterRequest): Talk -> bool {
    t => TrackMatches(t, request.tracks) && LevelMatches(t, request.levels)
  }

  function UpToKeywordFilter(request: FilterRequest): Talk -> bool {
    t => TrackMatches(t, request.tracks) && LevelMatches(t, request.levels) && KeywordsMatch(t, request.keywords)
  }

  function MatchesFilter(request: FilterRequest): Talk -> bool {
    t => Matches(t, request)
  }

  lemma TrackStage(talks: seq<Talk>, tracks: seq<string>)
    requires forall t :: t in talks ==> t.category.Some?
    ensures (if |tracks| > 0 then FilterResult(talks, TrackTest(tracks)) else Ok(talks)) == Ok(Filter(talks, TrackFilter(tracks)))
  {
    if |tracks| > 0 {
      forall i | 0 <= i < |talks| ensures TrackTest(tracks)(talks[i]) == Ok(TrackFilter(tracks)(talks[i])) {
        assert talks[i] in talks;
      }
      FilterResultAgrees(talks, TrackTest(tracks), TrackFilter(tracks));
    } else {
      FilterAll(talks, TrackFilter(tracks));
    }
  }

  lemma LevelStage(talks: seq<Talk>, levels: seq<string>)
    requires forall t :: t in talks ==> t.category.Some?
    ensures (if |levels| > 0 then FilterResult(talks, LevelTest(levels)) else Ok(talks)) == Ok(Filter(talks, LevelFilter(levels)))
  {
    if |levels| > 0 {
      forall i | 0 <= i < |talks| ensures LevelTest(levels)(talks[i]) == Ok(LevelFilter(levels)(talks[i])) {
        assert talks[i] in talks;
      }
      FilterResultAgrees(talks, LevelTest(levels), LevelFilter(levels));
    } else {
      FilterAll(talks, LevelFilter(levels));
    }
  }

  lemma EnglishStage(talks: seq<Talk>, isEnglishOnly: bool)
    requires forall t :: t in talks ==> t.category.Some?
    ensures (if isEnglishOnly then FilterResult(talks, EnglishTest()) else Ok(talks)) == Ok(Filter(talks, EnglishFilter(isEnglishOnly)))
  {
    if isEnglishOnly {
      forall i | 0 <= i < |talks| ensures EnglishTest()(talks[i]) == Ok(EnglishFilter(isEnglishOnly)(talks[i])) {
        assert talks[i] in talks;
      }
      FilterResultAgrees(talks, EnglishTest(), EnglishFilter(isEnglishOnly));
    } else {
      FilterAll(talks, EnglishFilter(isEnglishOnly));
    }
  }

  lemma {:induction false} KeywordStagesFilter(talks: seq<Talk>, keywords: seq<string>)
    requires forall t :: t in talks ==> Searchable(t)
    ensures KeywordStages(talks, keywords) == Ok(Filter(talks, KeywordsFilter(keywords)))
    decreases |keywords|
  {
    if |keywords| == 0 {
      FilterAll(talks, KeywordsFilter(keywords));
    } else {
      var first := t => SearchText(t).Ok? && Contains(SearchText(t).value, keywords[0]);
      forall i | 0 <= i < |talks| ensures KeywordTest(keywords[0])(talks[i]) == Ok(first(talks[i])) {
        assert talks[i] in talks;
      }
      FilterResultAgrees(talks, KeywordTest(keywords[0]), first);
      var kept := Filter(talks, first);
      KeywordStagesFilter(kept, keywords[1..]);
      FilterTwice(talks, first, KeywordsFilter(keywords[1..]), KeywordsFilter(keywords));
    }
  }

  /** On talks that every criterion can inspect, `filter_by` keeps, in order, exactly the talks
      that meet every criterion of the request. */
  lemma FilterByMatches(talks: seq<Talk>, request: FilterRequest)
    requires forall t :: t in talks ==> Searchable(t)
    ensures FilterBySpec(talks, request) == Ok(Filter(talks, MatchesFilter(request)))
  {
    TrackStage(talks, request.tracks);
    var byTrack := Filter(talks, TrackFilter(request.tracks));
    LevelStage(byTrack, request.levels);
    FilterTwice(talks, TrackFilter(request.tracks), LevelFilter(request.levels), UpToLevelFilter(request));
    var byLevel := Filter(talks, UpToLevelFilter(request));
    KeywordStagesFilter(byLevel, request.keywords);
    FilterTwice(talks, UpToLevelFilter(request), KeywordsFilter(request.keywords), UpToKeywordFilter(request));
    var byKeyword := Filter(talks, UpToKeywordFilter(request));
    EnglishStage(byKeyword, request.isEnglishOnly);
    FilterTwice(talks, UpToKeywordFilter(request), EnglishFilter(request.isEnglishOnly), MatchesFilter(request));
  }

  /** With a track criterion, a talk without a category makes `filter_by` raise. */
  lemma FilterByNeedsCategory(talks: seq<Talk>, request: FilterRequest, i: nat)
    requires |request.tracks| > 0 && i < |talks| && talks[i].category.None?
    ensures FilterBySpec(talks, request) == Err(AttributeError)
  {
    var stage := FilterResult(talks, TrackTest(request.tracks));
    assert TrackTest(request.tracks)(talks[i]).Err?;
  }

  // Keyword case. The search is described as case-insensitive, but only the text is
  // lower-cased, so a keyword with a capital letter can never match.

  /** A keyword with an ASCII capital letter in it never keeps a talk, whatever the talk. */
  lemma CapitalKeywordNeverMatches(t: Talk, keyword: string, i: nat)
    requires i < |keyword| && 'A' <= keyword[i] <= 'Z'
    ensures KeywordTest(keyword)(t) != Ok(true)
  {
    var text := SearchText(t);
    if text.Ok? && Contains(text.value, keyword) {
      ContainsAt(text.value, keyword);
      assert false;
    }
  }

  /** The evidently intended test: the keyword is lower-cased like the text. */
  function CaseInsensitiveKeywordTest(keyword: string): Talk -> Result<bool> {
    (t: Talk) => var text :- SearchText(t); Ok(Contains(text, Lower(keyword)))
  }

  lemma LowerIdempotent(s: string)
    ensures Lower(Lower(s)) == Lower(s)
  {
  }

  lemma LowerAppend(a: string, b: string)
    ensures Lower(a + b) == Lower(a) + Lower(b)
  {
  }

  lemma ContainsInPrefix(a: string, b: string, k: string)
    requires Contains(a, k)
    ensures Contains(a + b, k)
  {
    ContainsAt(a, k);
    var j :| OccursAt(a, k, j);
    assert (a + b)[j..j + |k|] == a[j..j + |k|];
    assert OccursAt(a + b, k, j);
    ContainsAt(a + b, k);
  }

  /** On a keyword that is already lower case, the corrected test is the written one. */
  lemma CaseInsensitiveAgreesOnLowerCase(t: Talk, keyword: string)
    requires Lower(keyword) == keyword
    ensures CaseInsensitiveKeywordTest(keyword)(t) == KeywordTest(keyword)(t)
  {
  }

  /** The corrected test does not depend on the case of the keyword, and it keeps every talk
      whose title contains the keyword in any mix of case. */
  lemma CaseInsensitiveKeywordTestProperties(t: Talk, keyword: string)
    ensures CaseInsensitiveKeywordTest(Lower(keyword))(t) == CaseInsensitiveKeywordTest(keyword)(t)
    ensures SearchText(t).Ok? && Contains(Lower(t.title), Lower(keyword)) ==> CaseInsensitiveKeywordTest(keyword)(t) == Ok(true)
  {
    LowerIdempotent(keyword);
    if SearchText(t).Ok? && Contains(Lower(t.title), Lower(keyword)) {
      var a := t.answer.value;
      var parts := [t.title, a.elevatorPitch.value, a.audiencePriorKnowledge.value, a.audienceTakeAway.value];
      var rest := "\n" + Join(parts[1..], "\n");
      assert Join(parts, "\n") == t.title + rest;
      LowerAppend(t.title, rest);
      ContainsInPrefix(Lower(t.title), Lower(rest), Lower(keyword));
    }
  }

  // ---------------------------------------------------------------------------------------
  // `talks[key]` and `talks[start:stop]`.

  /** Where a slice bound lands: negative bounds count from the end, and both are clamped. */
  function SliceBound(bound: Option<int>, default: nat, n: nat): (r: nat)
    requires default <= n
    ensures r <= n
  {
    if bound.None? then default
    else if bound.value < 0 then (if bound.value + n < 0 then 0 else bound.value + n)
    else if bound.value > n then n
    else bound.value
  }

  /** `xs[start:stop]`, the slice wrapped in a new collection by `__getitem__`. */
  function Slice<T>(xs: seq<T>, start: Option<int>, stop: Option<int>): (r: seq<T>)
    ensures var lo, hi := SliceBound(start, 0, |xs|), SliceBound(stop, |xs|, |xs|);
      && |r| == (if lo < hi then hi - lo else 0)
      && forall k :: 0 <= k < |r| ==> r[k] == xs[lo + k]
  {
    var lo, hi := SliceBound(start, 0, |xs|), SliceBound(stop, |xs|, |xs|);
    if lo < hi then xs[lo..hi] else []
  }

  /** `xs[key]` for an integer key: negative keys count from the end. */
  function Index<T>(xs: seq<T>, key: int): (r: Result<T>)
    ensures r.Ok? <==> -|xs| <= key < |xs|
    ensures r.Err? ==> r.error == IndexError
    ensures r.Ok? ==> r.value in xs
  {
    if 0 <= key < |xs| then Ok(xs[key])
    else if -|xs| <= key < 0 then Ok(xs[key + |xs|])
    else Err(IndexError)
  }

  /** `xs[:i] + xs[i:] == xs` for every integer `i`, and `xs[:] == xs`. */
  lemma SliceSplit<T>(xs: seq<T>, i: int)
    ensures Slice(xs, None, Some(i)) + Slice(xs, Some(i), None) == xs
    ensures Slice(xs, None, None) == xs
  {
    var m := SliceBound(Some(i), 0, |xs|);
    assert Slice(xs, None, Some(i)) == xs[..m];
    assert Slice(xs, Some(i), None) == xs[m..];
    assert xs[..m] + xs[m..] == xs;
  }

  /** Every key `xs[key]` accepts picks the one element of the slice starting at that key (`xs[-1:]` for the last). */
  lemma IndexIsSingletonSlice<T>(xs: seq<T>, key: int)
    requires Index(xs, key).Ok?
    ensures Slice(xs, Some(key), if key == -1 then None else Some(key + 1)) == [Index(xs, key).value]
  {
  }

  /** A negative key counts from the end: `xs[-k]` is `xs[len(xs) - k]`, so `xs[-1]` is the last element. */
  lemma IndexFromEnd<T>(xs: seq<T>, k: int)
    requires 1 <= k <= |xs|
    ensures Index(xs, -k) == Index(xs, |xs| - k)
    ensures k == 1 ==> Index(xs, -1) == Ok(xs[|xs| - 1])
  {
  }

  // ---------------------------------------------------------------------------------------
  // `ScheduledTalks.sorted`: the key `(t.day, t.slot_number, t.room)`.

  /** Python's tuple `<` on `(day, slot_number, room)`. */
  predicate KeyLess(a: ScheduledTalk, b: ScheduledTalk) {
    || DateLess(a.slot.day, b.slot.day)
    || (a.slot.day == b.slot.day && a.slot.number < b.slot.number)
    || (a.slot.day == b.slot.day && a.slot.number == b.slot.number && LexLess(a.slot.room, b.slot.room))
  }

  /** `key(a) <= key(b)`. */
  predicate KeyLe(a: ScheduledTalk, b: ScheduledTalk) {
    !KeyLess(b, a)
  }

  /** `ScheduledTalks.sorted`. */
  function SortedScheduledTalks(talks: seq<ScheduledTalk>): seq<ScheduledTalk> {
    SortBy(talks, KeyLe)
  }

  predicate SameKeyValue(a: ScheduledTalk, b: ScheduledTalk) {
    a.slot.day == b.slot.day && a.slot.number == b.slot.number && a.slot.room == b.slot.room
  }

  lemma KeyTrichotomy(a: ScheduledTalk, b: ScheduledTalk)
    ensures KeyLess(a, b) || SameKeyValue(a, b) || KeyLess(b, a)
    ensures !(KeyLess(a, b) && KeyLess(b, a))
    ensures SameKeyValue(a, b) ==> !KeyLess(a, b)
  {
    LexLessAsymmetric(a.slot.room, b.slot.room);
    LexLessIrreflexive(a.slot.room);
    if a.slot.room != b.slot.room {
      LexLessTotal(a.slot.room, b.slot.room);
    }
    var d, e := a.slot.day, b.slot.day;
    if d != e {
      assert DateLess(d, e) || DateLess(e, d);
    }
  }

  lemma KeyLessTransitive(a: ScheduledTalk, b: ScheduledTalk, c: ScheduledTalk)
    ensures KeyLess(a, b) && KeyLess(b, c) ==> KeyLess(a, c)
  {
    if LexLess(a.slot.room, b.slot.room) && LexLess(b.slot.room, c.slot.room) {
      LexLessTransitive(a.slot.room, b.slot.room, c.slot.room);
    }
  }

  /** The key order orders every pair of talks and is transitive. */
  lemma KeyLeTotalPreorder()
    ensures TotalPreorder(KeyLe)
  {
    forall a, b ensures KeyLe(a, b) || KeyLe(b, a) {
      KeyTrichotomy(a, b);
    }
    forall a, b, c | KeyLe(a, b) && KeyLe(b, c) ensures KeyLe(a, c) {
      KeyTrichotomy(b, c);
      KeyLessTransitive(b, c, a);
    }
  }

  /** `sorted()` returns the same talks, ordered by (day, slot number, room); talks in the same
      slot are ordered by room name; talks with equal keys keep their order; and sorting a
      second time changes nothing. */
  lemma SortedScheduledTalksProperties(talks: seq<ScheduledTalk>)
    ensures var r := SortedScheduledTalks(talks);
      && multiset(r) == multiset(talks)
      && (forall i, j :: 0 <= i < j < |r| ==> !KeyLess(r[j], r[i]))
      && (forall i, j :: 0 <= i < j < |r| && r[i].slot.day == r[j].slot.day && r[i].slot.number == r[j].slot.number
            ==> LexLessEq(r[i].slot.room, r[j].slot.room))
      && (forall x :: SameKey(r, x, KeyLe) == SameKey(talks, x, KeyLe))
      && SortedScheduledTalks(r) == r
  {
    KeyLeTotalPreorder();
    SortBySorted(talks, KeyLe);
    forall x {
      SortByStable(talks, x, KeyLe);
    }
    SortByIdempotent(talks, KeyLe);
  }

  /** Any ordering of the talks that is sorted by the key and keeps the order of equal keys is
      the one `sorted()` returns. */
  lemma SortedScheduledTalksUnique(talks: seq<ScheduledTalk>, s: seq<ScheduledTalk>)
    requires forall i, j :: 0 <= i < j < |s| ==> KeyLe(s[i], s[j])
    requires forall x :: SameKey(s, x, KeyLe) == SameKey(talks, x, KeyLe)
    ensures s == SortedScheduledTalks(talks)
  {
    KeyLeTotalPreorder();
    SortBySorted(talks, KeyLe);
    forall x ensures SameKey(SortedScheduledTalks(talks), x, KeyLe) == SameKey(s, x, KeyLe) {
      SortByStable(talks, x, KeyLe);
    }
    StableSortIsUnique(SortedScheduledTalks(talks), s, KeyLe);
  }
}
