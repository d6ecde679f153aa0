/** The fixed configuration of the feed builder (class `Config` in pd.py): the
    recognised extensions and their MIME types, the base URL, the artwork file
    name, and the synthetic publish date of an episode. */
module Config {
  import opened Wrappers
  import opened Text
  import opened Calendar

  /** `Config.ext`, in the order the directory filter tries them. */
  const Exts: seq<string> := [".mp3", ".m4a", ".ogg", ".aac"]

  /** `Config.audioType`. */
  const AudioType: map<string, string> :=
    map[".mp3" := "audio/mpeg", ".m4a" := "audio/x-m4a",
        ".ogg" := "audio/ogg", ".aac" := "audio/x-aac"]

  /** `Config.url`. */
  const Url := "http://10.1.1.9/"

  /** `Config.artwork`. */
  const Artwork := "artwork.jpg"

  /** Every recognised extension has a MIME type, and no two extensions are alike. */
  lemma ExtsHaveAudioType()
    ensures forall e :: e in Exts ==> e in AudioType
    ensures forall i, j :: 0 <= i < j < |Exts| ==> Exts[i] != Exts[j]
  {
  }

  /** The instant `fakeDate` starts from: 2009-01-01 10:10:10. */
  const Base := DateTime(2009, 1, 1, 10, 10, 10)

  /** The largest episode number whose publish date is before the year 10000. */
  const MaxEpisode := 2801905

  lemma BaseInstant()
    ensures Instant(Base) == 63366401410
  {
    assert DaysBeforeYear(2009) == 733407;
  }

  /** `datetime(2009, 1, 1, 10, 10, 10) + timedelta(days=i, hours=i)`; `None`
      is the OverflowError Python raises when the sum passes the year 9999. */
  function FakeMoment(i: nat): (r: Option<DateTime>)
    ensures r.Some? <==> i <= MaxEpisode
    ensures r.Some? ==> InRange(r.value) && r.value.year >= 2009
    ensures r.Some? ==> Instant(r.value) == Instant(Base) + i * 86400 + i * 3600
  {
    BaseInstant();
    AddSeconds(Base, i * 86400 + i * 3600)
  }

  /** `Config.fakeDate(i)`: the moment above in `%a, %d %b %Y %H:%M:%S GMT`. */
  function FakeDate(i: nat): (r: Option<string>)
    ensures r.Some? <==> i <= MaxEpisode
    ensures r.Some? ==> |r.value| == 29 && ParseStamp(r.value) == FakeMoment(i)
    ensures r.Some? ==> r.value[..3] == DayName(Weekday(FakeMoment(i).value))
  {
    match FakeMoment(i)
    case None => None
    case Some(t) =>
      StampReadsBack(t);
      Some(Stamp(t))
  }

  // The worked examples below find the moment through its instant, which
  // pins a valid datetime down, and then build its stamp from small parts.

  lemma Year2009()
    ensures DaysBeforeYear(2009) == 733407
  {
  }

  lemma Fixed2009()
    ensures Fixed(2009, 4) == "2009"
  {
    assert Fixed(2, 1) == Fixed(0, 0) + [DigitChar(2)];
    assert Fixed(20, 2) == Fixed(2, 1) + [DigitChar(0)];
    assert Fixed(200, 3) == Fixed(20, 2) + [DigitChar(0)];
  }

  /** The moment of episode `i` is the valid datetime `i * 90000` seconds after the base. */
  lemma MomentAt(i: nat, t: DateTime)
    requires i <= MaxEpisode && Valid(t) && Instant(t) == Instant(Base) + i * 90000
    ensures FakeMoment(i) == Some(t)
  {
    InstantInjective(FakeMoment(i).value, t);
  }

  lemma BaseMoment()
    ensures FakeMoment(0) == Some(Base)
  {
    MomentAt(0, Base);
  }

  lemma BaseParts()
    ensures DayName(Weekday(Base)) == "Thu" && Pad2(1) == "01" && MonthName(1) == "Jan"
    ensures Fixed(2009, 4) == "2009" && Clock(Base) == "10:10:10"
  {
    Year2009();
    assert Weekday(Base) == 3;
    Pad2Digits(1);
    Pad2Digits(10);
    Fixed2009();
  }

  lemma BaseJoin()
    ensures "Thu" + ", " + "01" + " " + "Jan" + " " + "2009" + " " + "10:10:10" + " GMT"
            == "Thu, 01 Jan 2009 10:10:10 GMT"
  {
  }

  lemma FakeDateZero()
    ensures FakeDate(0) == Some("Thu, 01 Jan 2009 10:10:10 GMT")
  {
    BaseMoment();
    BaseParts();
    BaseJoin();
  }

  lemma SecondDayMoment()
    ensures FakeMoment(1) == Some(DateTime(2009, 1, 2, 11, 10, 10))
  {
    var t := DateTime(2009, 1, 2, 11, 10, 10);
    BaseInstant();
    Year2009();
    assert Instant(t) == Instant(Base) + 90000;
    MomentAt(1, t);
  }

  lemma SecondDayParts()
    ensures var t := DateTime(2009, 1, 2, 11, 10, 10);
      DayName(Weekday(t)) == "Fri" && Pad2(2) == "02" && MonthName(1) == "Jan" &&
      Fixed(2009, 4) == "2009" && Clock(t) == "11:10:10"
  {
    Year2009();
    assert Weekday(DateTime(2009, 1, 2, 11, 10, 10)) == 4;
    Pad2Digits(2);
    Pad2Digits(10);
    Pad2Digits(11);
    Fixed2009();
  }

  lemma SecondDayJoin()
    ensures "Fri" + ", " + "02" + " " + "Jan" + " " + "2009" + " " + "11:10:10" + " GMT"
            == "Fri, 02 Jan 2009 11:10:10 GMT"
  {
  }

  lemma FakeDateOne()
    ensures FakeDate(1) == Some("Fri, 02 Jan 2009 11:10:10 GMT")
  {
    SecondDayMoment();
    SecondDayParts();
    SecondDayJoin();
  }

  /** Episode 1108 falls on Wednesday the leap day of 2012, three year ends later. */
  lemma FakeMomentLeapDay()
    ensures FakeMoment(1108) == Some(DateTime(2012, 2, 29, 14, 10, 10))
    ensures Weekday(DateTime(2012, 2, 29, 14, 10, 10)) == 2
  {
    BaseInstant();
    LeapDayInstant();
    MomentAt(1108, DateTime(2012, 2, 29, 14, 10, 10));
  }

  lemma LeapDayInstant()
    ensures var t := DateTime(2012, 2, 29, 14, 10, 10);
      Valid(t) && Ordinal(2012, 2, 29) == 734562 && Instant(t) == 63466121410 && Weekday(t) == 2
  {
    assert DaysBeforeYear(2012) == 734502;
    assert DaysBeforeMonth(2012, 2) == 31;
  }

  /** A larger episode number is published strictly later. */
  lemma FakeDateIncreasing(i: nat, j: nat)
    requires i < j <= MaxEpisode
    ensures FakeMoment(i).Some? && FakeMoment(j).Some?
    ensures Before(FakeMoment(i).value, FakeMoment(j).value)
  {
    InstantOrder(FakeMoment(i).value, FakeMoment(j).value);
  }
}
