/** Concrete cases from the repository's tests and data, stated about the model. */
module Fixtures {
  import opened Wrappers
  import opened Strings
  import opened Sequences
  import opened Timestamps
  import opened SlotNumbering
  import opened Factories
  import opened Core

  /** A text that differs from `p` at a position inside both does not start with `p`. */
  lemma DiffersAt(p: string, s: string, i: nat)
    requires i < |p| && i < |s| && p[i] != s[i]
    ensures !(p <= s)
  {
  }

  /** A title whose first letter begins none of the excluded prefixes is kept. */
  lemma KeptByFirstLetter(title: string)
    requires |title| > 0 && title[0] != 'ス' && title[0] != 'A' && title[0] != 'B'
    ensures Included(title)
  {
    IncludedPrefixes(title);
    DiffersAt("スペシャルブース", title, 0);
    DiffersAt("Ask the speaker", title, 0);
    DiffersAt("Break", title, 0);
  }

  /** A title made of an excluded prefix and more is dropped. */
  lemma DroppedByPrefix(p: string, rest: string)
    requires p in ExcludedPrefixes
    ensures !Included(p + rest)
  {
    assert (p + rest)[..|p|] == p;
  }

  /** The titles of the session filter test: the timetable keeps the openings, the keynote,
      the talks and the lightning talks, and drops the booth visits, the "Ask the speaker"
      sessions and the break. The booth introduction "スペシャルブース紹介" starts with
      "スペシャルブース", so the code drops it too, although the test lists it among the kept
      sessions. */
  lemma SessionFilterTitles()
    ensures Included("Venue open") && Included("Opening (Day 1)") && Included("基調講演")
    ensures Included("スロット1・ルーム1のトーク") && Included("Lightning talks") && Included("Closing (Day1)")
    ensures Included("スロット1・ルーム2のトーク") && Included("スロット2・ルーム1のトーク") && Included("スロット2・ルーム2のトーク")
    ensures !Included("スペシャルブース訪問") && !Included("Ask the speaker / スペシャルブース") && !Included("Break")
    ensures !Included("スペシャルブース紹介")
  {
    KeptTitles();
    DroppedTitles();
  }

  /** A title starting with "スロ" is kept: it shares only its first letter with "スペシャルブース". */
  lemma KeptSlotTalk(title: string)
    requires |title| > 1 && title[0] == 'ス' && title[1] == 'ロ'
    ensures Included(title)
  {
    IncludedPrefixes(title);
    DiffersAt("スペシャルブース", title, 1);
    DiffersAt("Ask the speaker", title, 0);
    DiffersAt("Break", title, 0);
  }

  /** The nine sessions the filter keeps. */
  lemma KeptTitles()
    ensures Included("Venue open") && Included("Opening (Day 1)") && Included("基調講演")
    ensures Included("スロット1・ルーム1のトーク") && Included("Lightning talks") && Included("Closing (Day1)")
    ensures Included("スロット1・ルーム2のトーク") && Included("スロット2・ルーム1のトーク") && Included("スロット2・ルーム2のトーク")
  {
    KeptByFirstLetter("Venue open");
    KeptByFirstLetter("Opening (Day 1)");
    KeptByFirstLetter("基調講演");
    KeptByFirstLetter("Lightning talks");
    KeptByFirstLetter("Closing (Day1)");
    KeptSlotTalk("スロット1・ルーム1のトーク");
    KeptSlotTalk("スロット1・ルーム2のトーク");
    KeptSlotTalk("スロット2・ルーム1のトーク");
    KeptSlotTalk("スロット2・ルーム2のトーク");
  }

  /** The four sessions the filter drops. */
  lemma DroppedTitles()
    ensures !Included("スペシャルブース訪問") && !Included("Ask the speaker / スペシャルブース") && !Included("Break")
    ensures !Included("スペシャルブース紹介")
  {
    assert ExcludedPrefixes[0] == "スペシャルブース" && ExcludedPrefixes[1] == "Ask the speaker";
    assert ExcludedPrefixes[2] == "Break";
    DroppedByPrefix("スペシャルブース", "訪問");
    assert "スペシャルブース" + "訪問" == "スペシャルブース訪問";
    DroppedByPrefix("スペシャルブース", "紹介");
    assert "スペシャルブース" + "紹介" == "スペシャルブース紹介";
    DroppedByPrefix("Ask the speaker", " / スペシャルブース");
    assert "Ask the speaker" + " / スペシャルブース" == "Ask the speaker / スペシャルブース";
    DroppedByPrefix("Break", "");
    assert "Break" + "" == "Break";
  }

  /** Two decimal digits. */
  lemma Decimal2(x: string)
    requires |x| == 2 && IsDigit(x[0]) && IsDigit(x[1])
    ensures AllDigits(x) && DecimalValue(x) == DigitValue(x[0]) * 10 + DigitValue(x[1])
  {
    assert x[..1] == [x[0]] && x[..1][..0] == [];
    assert DecimalValue(x[..1]) == DigitValue(x[0]);
  }

  /** Four decimal digits. */
  lemma Decimal4(x: string)
    requires |x| == 4 && IsDigit(x[0]) && IsDigit(x[1]) && IsDigit(x[2]) && IsDigit(x[3])
    ensures AllDigits(x)
    ensures DecimalValue(x) == DigitValue(x[0]) * 1000 + DigitValue(x[1]) * 100 + DigitValue(x[2]) * 10 + DigitValue(x[3])
  {
    assert x[..3][..2] == x[..2];
    assert x[..2] == [x[0], x[1]];
    Decimal2(x[..2]);
  }

  /** A text in the places of `YYYY-MM-DDTHH:MM:SS` reads as the date and time its digits spell. */
  lemma ReadTimestamp(s: string, d: Date, t: Time)
    requires |s| == 19 && s[4] == '-' && s[7] == '-' && s[10] == 'T' && s[13] == ':' && s[16] == ':'
    requires forall i :: 0 <= i < 19 && i !in {4, 7, 10, 13, 16} ==> IsDigit(s[i])
    requires d.year == DigitValue(s[0]) * 1000 + DigitValue(s[1]) * 100 + DigitValue(s[2]) * 10 + DigitValue(s[3])
    requires d.month == DigitValue(s[5]) * 10 + DigitValue(s[6]) && d.day == DigitValue(s[8]) * 10 + DigitValue(s[9])
    requires t.hour == DigitValue(s[11]) * 10 + DigitValue(s[12]) && t.minute == DigitValue(s[14]) * 10 + DigitValue(s[15])
    requires t.second == DigitValue(s[17]) * 10 + DigitValue(s[18])
    ensures Shaped(s) && ParseDate(s) == d && ParseTime(s) == t
  {
    Decimal4(s[0..4]);
    Decimal2(s[5..7]);
    Decimal2(s[8..10]);
    Decimal2(s[11..13]);
    Decimal2(s[14..16]);
    Decimal2(s[17..19]);
  }

  /** From 17:00 to 17:30 on the same day is 30 minutes. */
  lemma HalfHourTalk()
    ensures CalculateDurationMin("2021-10-15T17:00:00", "2021-10-15T17:30:00") == Ok(30)
  {
    var start, end := "2021-10-15T17:00:00", "2021-10-15T17:30:00";
    ReadTimestamp(start, Date(2021, 10, 15), Time(17, 0, 0));
    ReadTimestamp(end, Date(2021, 10, 15), Time(17, 30, 0));
    DurationSameDay(start, end);
  }

  /** In any list of start times holding 16:00 on the 15th, 15:00 on the same day is numbered
      before it. */
  lemma EarlierSlotFirst(starts: seq<string>)
    requires "2021-10-15T16:00:00" in starts
    ensures WellFormed("2021-10-15T15:00:00") && WellFormed("2021-10-15T16:00:00")
    ensures Rank(starts, DateOf, "2021-10-15T15:00:00") < Rank(starts, DateOf, "2021-10-15T16:00:00")
  {
    var a, b := "2021-10-15T15:00:00", "2021-10-15T16:00:00";
    ReadTimestamp(a, Date(2021, 10, 15), Time(15, 0, 0));
    ReadTimestamp(b, Date(2021, 10, 15), Time(16, 0, 0));
    SlotNumbersFollowTime(starts, a, b);
  }
}
