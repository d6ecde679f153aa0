/** The text of the feed (class `FeedGen` in pd.py): the channel header, one
    `<item>` block per track and the closer. Values are put into the template
    exactly as they are; nothing is escaped. The templates are written here as
    the lines they consist of, each line with the indentation it has in pd.py. */
module FeedGen {
  import opened Wrappers
  import opened Text
  import opened Calendar
  import opened Config

  // ---------------------------------------------------------------------------
  // Occurrence of one text inside another

  predicate Occurs(s: string, t: string, at: int) {
    0 <= at && at + |t| <= |s| && s[at..at + |t|] == t
  }

  /** `t in s` for strings. */
  predicate Has(s: string, t: string) {
    exists at :: 0 <= at <= |s| && Occurs(s, t, at)
  }

  lemma HasWithin(s: string, t: string, u: string)
    requires Has(s, t) && Has(t, u)
    ensures Has(s, u)
  {
    var a :| 0 <= a <= |s| && Occurs(s, t, a);
    var b :| 0 <= b <= |t| && Occurs(t, u, b);
    assert t == s[a..a + |t|];
    forall k | 0 <= k < |u| ensures s[a + b + k] == u[k] {
      assert u[k] == t[b + k];
    }
    assert s[a + b..a + b + |u|] == u;
    assert Occurs(s, u, a + b);
  }

  lemma HasParts(a: string, b: string)
    ensures Has(a + b, a) && Has(a + b, b)
  {
    assert (a + b)[0..|a|] == a;
    assert Occurs(a + b, a, 0);
    assert (a + b)[|a|..|a| + |b|] == b;
    assert Occurs(a + b, b, |a|);
  }

  lemma HasExtended(s: string, t: string, u: string)
    requires Has(s, u)
    ensures Has(s + t, u) && Has(t + s, u)
  {
    HasParts(s, t);
    HasParts(t, s);
    HasWithin(s + t, s, u);
    HasWithin(t + s, s, u);
  }

  // ---------------------------------------------------------------------------
  // Building blocks of the templates

  /** The texts one after the other, as `+=` on a string builds them. */
  function Join(parts: seq<string>): string {
    if parts == [] then "" else parts[0] + Join(parts[1..])
  }

  lemma {:induction false} JoinAppend(a: seq<string>, b: seq<string>)
    ensures Join(a + b) == Join(a) + Join(b)
  {
    if a == [] {
      assert a + b == b;
    } else {
      assert (a + b)[0] == a[0];
      assert (a + b)[1..] == a[1..] + b;
      JoinAppend(a[1..], b);
      assert Join(a + b) == a[0] + (Join(a[1..]) + Join(b));
    }
  }

  /** Every part can be found in the joined text. */
  lemma {:induction false} JoinHas(parts: seq<string>, k: int)
    requires 0 <= k < |parts|
    ensures Has(Join(parts), parts[k])
  {
    if k == 0 {
      HasParts(parts[0], Join(parts[1..]));
    } else {
      JoinHas(parts[1..], k - 1);
      HasExtended(Join(parts[1..]), parts[0], parts[k]);
    }
  }

  function Spaces(n: nat): (r: string)
    ensures |r| == n && forall i :: 0 <= i < n ==> r[i] == ' '
  {
    if n == 0 then "" else " " + Spaces(n - 1)
  }

  /** One line of a template, indented by four spaces per level. */
  function Line(depth: nat, content: string): string {
    Spaces(4 * depth) + content + "\n"
  }

  lemma LineHas(depth: nat, content: string)
    ensures Has(Line(depth, content), content)
  {
    HasParts(Spaces(4 * depth) + content, "\n");
    HasParts(Spaces(4 * depth), content);
    HasWithin(Spaces(4 * depth) + content + "\n", Spaces(4 * depth) + content, content);
  }

  function Quoted(s: string): string {
    "\"" + s + "\""
  }

  /** `<tag>text</tag>` with the text as it is. */
  function Element(tag: string, text: string): string {
    "<" + tag + ">" + text + "</" + tag + ">"
  }

  /** `name="value"` with the value as it is. */
  function Attribute(name: string, value: string): string {
    name + "=" + Quoted(value)
  }

  // ---------------------------------------------------------------------------
  // The three templates

  const XmlDeclaration := "<?xml version=\"1.0\" encoding=\"UTF-8\"?>"

  const RssOpen := "<rss version=\"2.0\" xmlns:itunes=\"http://www.itunes.com/dtds/podcast-1.0.dtd\" xmlns:content=\"http://purl.org/rss/1.0/modules/content/\">"

  /** The link to the artwork: the feed's URL followed by `Config.artwork`. */
  function ArtworkLine(url: string): string {
    "<itunes:image href=" + Quoted(url + Artwork) + " />"
  }

  /** The lines of the header template up to its last line break. */
  function HeaderLines(albumTitle: string, albumAuthor: string, url: string): seq<string> {
    [Line(0, XmlDeclaration),
     Line(0, RssOpen),
     "\n",
     "\n",
     Line(1, "<channel>"),
     Line(2, Element("title", albumTitle)),
     Line(2, Element("language", "en-us")),
     Line(2, Element("itunes:author", albumAuthor)),
     Line(2, Element("itunes:explicit", "false")),
     Line(2, Element("itunes:type", "serial")),
     Line(2, ArtworkLine(url)),
     "\n"]
  }

  /** `FeedGen.feed(albumTitle, albumAuthor, url)`: the header template, which
      ends in the eight spaces before its closing quotes, with `rstrip(" ")`
      applied; that removes exactly those eight spaces. */
  function Header(albumTitle: string, albumAuthor: string, url: string): (r: string)
    ensures r == Join(HeaderLines(albumTitle, albumAuthor, url))
  {
    var lines := HeaderLines(albumTitle, albumAuthor, url);
    JoinAppend(lines[..11], ["\n"]);
    assert lines == lines[..11] + ["\n"];
    RStripUnique(Join(lines) + Spaces(8), {' '}, Join(lines));
    RStrip(Join(lines) + Spaces(8), {' '})
  }

  /** The header starts with the XML declaration, ends with a line break, and
      carries the album title, the album author and the artwork link verbatim. */
  lemma HeaderFields(albumTitle: string, albumAuthor: string, url: string)
    ensures var r := Header(albumTitle, albumAuthor, url);
      XmlDeclaration <= r && r[|r| - 1] == '\n' &&
      Has(r, Element("title", albumTitle)) &&
      Has(r, Element("itunes:author", albumAuthor)) &&
      Has(r, ArtworkLine(url))
  {
    HeaderEnds(albumTitle, albumAuthor, url);
    HeaderHasLine(albumTitle, albumAuthor, url, 5, Element("title", albumTitle));
    HeaderHasLine(albumTitle, albumAuthor, url, 7, Element("itunes:author", albumAuthor));
    HeaderHasLine(albumTitle, albumAuthor, url, 10, ArtworkLine(url));
  }

  lemma HeaderEnds(albumTitle: string, albumAuthor: string, url: string)
    ensures var r := Header(albumTitle, albumAuthor, url);
      XmlDeclaration <= r && r[|r| - 1] == '\n'
  {
    var lines := HeaderLines(albumTitle, albumAuthor, url);
    assert XmlDeclaration <= lines[0];
    JoinBounds(lines, XmlDeclaration);
  }

  /** A joined text starts with what its first part starts with, and ends with
      a line break when its last part is one. */
  lemma JoinBounds(lines: seq<string>, head: string)
    requires |lines| >= 1 && head <= lines[0] && lines[|lines| - 1] == "\n"
    ensures head <= Join(lines)
    ensures |Join(lines)| >= 1 && Join(lines)[|Join(lines)| - 1] == '\n'
  {
    JoinFirst(lines);
    JoinLast(lines);
  }

  /** A joined text starts with its first part. */
  lemma JoinFirst(lines: seq<string>)
    requires |lines| >= 1
    ensures lines[0] <= Join(lines)
  {
    var rest := Join(lines[1..]);
    assert Join(lines) == lines[0] + rest;
    assert (lines[0] + rest)[..|lines[0]|] == lines[0];
  }

  /** A joined text ends with its last part. */
  lemma JoinLast(lines: seq<string>)
    requires |lines| >= 1
    ensures Join(lines) == Join(lines[..|lines| - 1]) + lines[|lines| - 1]
  {
    var n := |lines|;
    JoinOne(lines[n - 1]);
    assert lines == lines[..n - 1] + [lines[n - 1]];
    JoinAppend(lines[..n - 1], [lines[n - 1]]);
  }

  lemma JoinOne(x: string)
    ensures Join([x]) == x
  {
    assert [x][1..] == [];
  }

  lemma HeaderHasLine(albumTitle: string, albumAuthor: string, url: string, k: nat, content: string)
    requires k < 12 && HeaderLines(albumTitle, albumAuthor, url)[k] == Line(2, content)
    ensures Has(Header(albumTitle, albumAuthor, url), content)
  {
    var lines := HeaderLines(albumTitle, albumAuthor, url);
    JoinHas(lines, k);
    LineHas(2, content);
    HasWithin(Header(albumTitle, albumAuthor, url), lines[k], content);
  }

  /** The keyword arguments `perTrack` passes to `format`, with the duration
      and the publish date already rendered. */
  datatype ItemArgs = ItemArgs(title: string, filename: string, atype: string, size: nat,
                               author: string, num: nat, duration: string, url: string,
                               fakeDate: string)

  /** Where the item's audio file is served from. */
  function Link(a: ItemArgs): string {
    a.url + a.filename
  }

  function EnclosureParts(a: ItemArgs): seq<string> {
    ["<enclosure ", Attribute("url", Link(a)), " ", Attribute("type", a.atype), " ",
     Attribute("length", NatToString(a.size)), "/>"]
  }

  function EnclosureLine(a: ItemArgs): string {
    Join(EnclosureParts(a))
  }

  /** The lines of the item template; the item ends in the eight spaces before
      the closing quotes, which stay in the document. */
  function ItemLines(a: ItemArgs): seq<string> {
    ["\n",
     Line(2, "<item>"),
     Line(3, Element("title", a.title)),
     Line(3, Element("itunes:title", a.title)),
     Line(3, EnclosureLine(a)),
     Line(3, Element("guid", Quoted(Link(a)))),
     Line(3, Element("itunes:author", a.author)),
     Line(3, Element("itunes:duration", a.duration)),
     Line(3, Element("itunes:explicit", "false")),
     Line(3, Element("itunes:episode", NatToString(a.num))),
     Line(3, Element("pubDate", a.fakeDate)),
     Line(2, "</item> "),
     "\n",
     Spaces(8)]
  }

  function ItemText(a: ItemArgs): (r: string)
    ensures |r| > 0
  {
    var lines := ItemLines(a);
    assert lines == [lines[0]] + lines[1..];
    JoinAppend([lines[0]], lines[1..]);
    Join(lines)
  }

  /** The item carries each argument verbatim where the template puts it. */
  lemma ItemFields(a: ItemArgs)
    ensures var r := ItemText(a);
      Has(r, Element("title", a.title)) && Has(r, Element("itunes:title", a.title)) &&
      Has(r, Attribute("url", Link(a))) && Has(r, Attribute("type", a.atype)) &&
      Has(r, Attribute("length", NatToString(a.size))) &&
      Has(r, Element("guid", Quoted(Link(a)))) &&
      Has(r, Element("itunes:author", a.author)) &&
      Has(r, Element("itunes:duration", a.duration)) &&
      Has(r, Element("itunes:episode", NatToString(a.num))) &&
      Has(r, Element("pubDate", a.fakeDate))
  {
    ItemTitles(a);
    ItemEnclosure(a);
    ItemGuid(a);
    ItemTrack(a);
  }

  lemma ItemTitles(a: ItemArgs)
    ensures Has(ItemText(a), Element("title", a.title)) && Has(ItemText(a), Element("itunes:title", a.title))
  {
    var lines := ItemLines(a);
    JoinHas(lines, 2);
    LineHas(3, Element("title", a.title));
    HasWithin(ItemText(a), lines[2], Element("title", a.title));
    JoinHas(lines, 3);
    LineHas(3, Element("itunes:title", a.title));
    HasWithin(ItemText(a), lines[3], Element("itunes:title", a.title));
  }

  lemma ItemEnclosure(a: ItemArgs)
    ensures var r := ItemText(a);
      Has(r, Attribute("url", Link(a))) && Has(r, Attribute("type", a.atype)) &&
      Has(r, Attribute("length", NatToString(a.size)))
  {
    var lines := ItemLines(a);
    var r := ItemText(a);
    EnclosureFields(a);
    JoinHas(lines, 4);
    LineHas(3, EnclosureLine(a));
    HasWithin(r, lines[4], EnclosureLine(a));
    HasWithin(r, EnclosureLine(a), Attribute("url", Link(a)));
    HasWithin(r, EnclosureLine(a), Attribute("type", a.atype));
    HasWithin(r, EnclosureLine(a), Attribute("length", NatToString(a.size)));
  }

  lemma ItemGuid(a: ItemArgs)
    ensures Has(ItemText(a), Element("guid", Quoted(Link(a)))) &&
            Has(ItemText(a), Element("itunes:author", a.author))
  {
    var lines := ItemLines(a);
    var r := ItemText(a);
    JoinHas(lines, 5);
    LineHas(3, Element("guid", Quoted(Link(a))));
    HasWithin(r, lines[5], Element("guid", Quoted(Link(a))));
    JoinHas(lines, 6);
    LineHas(3, Element("itunes:author", a.author));
    HasWithin(r, lines[6], Element("itunes:author", a.author));
  }

  lemma ItemTrack(a: ItemArgs)
    ensures var r := ItemText(a);
      Has(r, Element("itunes:duration", a.duration)) &&
      Has(r, Element("itunes:episode", NatToString(a.num))) &&
      Has(r, Element("pubDate", a.fakeDate))
  {
    var lines := ItemLines(a);
    var r := ItemText(a);
    JoinHas(lines, 7);
    LineHas(3, Element("itunes:duration", a.duration));
    HasWithin(r, lines[7], Element("itunes:duration", a.duration));
    JoinHas(lines, 9);
    LineHas(3, Element("itunes:episode", NatToString(a.num)));
    HasWithin(r, lines[9], Element("itunes:episode", NatToString(a.num)));
    JoinHas(lines, 10);
    LineHas(3, Element("pubDate", a.fakeDate));
    HasWithin(r, lines[10], Element("pubDate", a.fakeDate));
  }

  lemma EnclosureFields(a: ItemArgs)
    ensures Has(EnclosureLine(a), Attribute("url", Link(a)))
    ensures Has(EnclosureLine(a), Attribute("type", a.atype))
    ensures Has(EnclosureLine(a), Attribute("length", NatToString(a.size)))
  {
    JoinHas(EnclosureParts(a), 1);
    JoinHas(EnclosureParts(a), 3);
    JoinHas(EnclosureParts(a), 5);
  }

  /** `(start + timedelta(seconds=s)).strftime("%H:%M:%S")`, `None` standing
      for the OverflowError raised past the year 9999. */
  function ClockAfter(start: DateTime, s: nat): (r: Option<string>)
    requires InRange(start)
    ensures r.Some? <==> AddSeconds(start, s).Some?
    ensures r.Some? ==> var t := AddSeconds(start, s).value;
      ParseClock(r.value) == Some((t.hour, t.minute, t.second))
  {
    match AddSeconds(start, s)
    case None => None
    case Some(t) =>
      ClockReadsBack(t);
      Some(Clock(t))
  }

  /** How pd.py renders a duration of `s` whole seconds: the clock time `s`
      seconds after `datetime.min`. */
  function DatetimeDuration(s: nat): Option<string> {
    MinInstant();
    ClockAfter(Min, s)
  }

  /** The rendered duration, computed from `s` directly: hours modulo a day,
      minutes and seconds, and no text once `datetime` overflows. */
  function DurationText(s: nat): (r: Option<string>)
    ensures r.Some? <==> s < Limit
    ensures r.Some? ==> |r.value| == 8
    ensures r.Some? ==> ParseClock(r.value) == Some(((s / 3600) % 24, (s / 60) % 60, s % 60))
  {
    if s < Limit then
      HourMinuteSecondReadsBack((s / 3600) % 24, (s / 60) % 60, s % 60);
      Some(HourMinuteSecond((s / 3600) % 24, (s / 60) % 60, s % 60))
    else None
  }

  /** Counting from any instant-zero start gives the same text as `DurationText`. */
  lemma ClockAfterZero(start: DateTime, s: nat)
    requires InRange(start) && Instant(start) == 0
    ensures ClockAfter(start, s) == DurationText(s)
  {
    Elapsed(start, s);
  }

  /** The direct computation is what `datetime` produces. */
  lemma DurationTextIsDatetime(s: nat)
    ensures DatetimeDuration(s) == DurationText(s)
  {
    MinInstant();
    ClockAfterZero(Min, s);
  }

  /** A track of 3725 seconds shows as "01:02:05". */
  lemma DurationExample()
    ensures DurationText(3725) == Some("01:02:05")
  {
    DurationFormula(3725, 1, 2, 5);
    ClockExamples();
  }

  /** A track of 90000 seconds (25 hours) shows as "01:00:00": the day is dropped. */
  lemma DurationDayDropped()
    ensures DurationText(90000) == Some("01:00:00")
  {
    DurationFormula(90000, 1, 0, 0);
    ClockExamples();
  }

  lemma DurationFormula(s: nat, h: nat, m: nat, sec: nat)
    requires s < Limit && h == (s / 3600) % 24 && m == (s / 60) % 60 && sec == s % 60
    ensures DurationText(s) == Some(HourMinuteSecond(h, m, sec))
  {
  }

  lemma ClockExamples()
    ensures HourMinuteSecond(1, 2, 5) == "01:02:05" && HourMinuteSecond(1, 0, 0) == "01:00:00"
  {
    Pad2Digits(0);
    Pad2Digits(1);
    Pad2Digits(2);
    Pad2Digits(5);
  }

  /** `s` seconds after an instant-zero datetime: representable below `Limit`,
      and then showing `s` as hours (modulo a day), minutes and seconds. */
  lemma Elapsed(start: DateTime, s: nat)
    requires InRange(start) && Instant(start) == 0
    ensures AddSeconds(start, s).Some? <==> s < Limit
    ensures AddSeconds(start, s).Some? ==>
      var t := AddSeconds(start, s).value;
      Valid(t) && (t.hour, t.minute, t.second) == ((s / 3600) % 24, (s / 60) % 60, s % 60)
  {
    ElapsedInstant(start, s);
    if AddSeconds(start, s).Some? {
      DurationClock(s, AddSeconds(start, s).value);
    }
  }

  lemma ElapsedInstant(start: DateTime, s: nat)
    requires InRange(start) && Instant(start) == 0
    ensures AddSeconds(start, s).Some? <==> s < Limit
    ensures AddSeconds(start, s).Some? ==>
      Valid(AddSeconds(start, s).value) && Instant(AddSeconds(start, s).value) == s
  {
  }

  lemma DurationClock(s: nat, t: DateTime)
    requires Valid(t) && Instant(t) == s
    ensures (t.hour, t.minute, t.second) == ((s / 3600) % 24, (s / 60) % 60, s % 60)
  {
    TimeOfDay(t);
    ClockFields(s);
  }

  /** Why a track could not be rendered: Python raises in `perTrack`. */
  datatype ItemError =
    | DurationMissing   // `int(None)`: the tag reader gave no duration
    | DurationOverflow  // `datetime.min + timedelta(...)` past the year 9999
    | DateOverflow      // `fakeDate(num)` past the year 9999

  /** `FeedGen.perTrack(title, filename, atype, size, author, duration, num, url)`. */
  function PerTrack(title: string, filename: string, atype: string, size: nat, author: string,
                    duration: Option<nat>, num: nat, url: string): (r: Result<string, ItemError>)
    ensures duration.None? ==> r == Err(DurationMissing)
    ensures duration.Some? && duration.value >= Limit ==> r == Err(DurationOverflow)
    ensures duration.Some? && duration.value < Limit && num > MaxEpisode ==> r == Err(DateOverflow)
    ensures r.Ok? <==> duration.Some? && duration.value < Limit && num <= MaxEpisode
    ensures r.Ok? ==> |r.value| > 0
  {
    match duration
    case None => Err(DurationMissing)
    case Some(d) =>
      match DurationText(d)
      case None => Err(DurationOverflow)
      case Some(clock) =>
        match FakeDate(num)
        case None => Err(DateOverflow)
        case Some(date) =>
          Ok(ItemText(ItemArgs(title, filename, atype, size, author, num, clock, url, date)))
  }

  /** A rendered item links its audio file at `url + filename`, uses that same
      link in quotes as its guid, gives the duration as `HH:MM:SS`, and takes
      both its episode number and its publish date from the same track number. */
  lemma PerTrackFields(title: string, filename: string, atype: string, size: nat, author: string,
                       duration: nat, num: nat, url: string)
    requires PerTrack(title, filename, atype, size, author, Some(duration), num, url).Ok?
    ensures var r := PerTrack(title, filename, atype, size, author, Some(duration), num, url).value;
      DurationText(duration).Some? && FakeDate(num).Some? &&
      Has(r, Element("title", title)) && Has(r, Element("itunes:title", title)) &&
      Has(r, Attribute("url", url + filename)) &&
      Has(r, Element("guid", Quoted(url + filename))) &&
      Has(r, Attribute("type", atype)) && Has(r, Attribute("length", NatToString(size))) &&
      Has(r, Element("itunes:author", author)) &&
      Has(r, Element("itunes:duration", DurationText(duration).value)) &&
      Has(r, Element("itunes:episode", NatToString(num))) &&
      Has(r, Element("pubDate", FakeDate(num).value))
  {
    ItemFields(ItemArgs(title, filename, atype, size, author, num, DurationText(duration).value,
                        url, FakeDate(num).value));
  }

  /** `FeedGen.closer`. */
  const Closer := "\n" + Line(1, "</channel>") + "</rss>\n" + "\n" + Spaces(4)

  /** The closer closes the channel and the document, and keeps the template's
      indentation: four spaces before `</channel>` and four after the last
      line break. */
  lemma CloserText()
    ensures Closer == "\n    </channel>\n</rss>\n\n    "
  {
    assert Spaces(4) == "    " by {
      assert Spaces(0) == "";
      assert Spaces(1) == " ";
      assert Spaces(2) == "  ";
      assert Spaces(3) == "   ";
    }
  }
}
