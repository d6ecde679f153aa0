/** The body of `main` in pd.py: filter the listing, turn every complete track
    into an item, take the channel header from the first of them, and join
    header, items and closer into the document. The listing (names, sizes and
    what the tag reader makes of each file) is an input; the document is the
    output, or the reason the program stops without writing one. */
module Pipeline {
  import opened Wrappers
  import opened Text
  import opened Config
  import opened Tag
  import opened FeedDir
  import opened FeedGen
  import opened Calendar

  /** Why `main` stops without writing the feed. */
  datatype Halt =
    | NoAudioFiles                                  // no file passed the extension filter
    | NoValidTracks                                 // every file was skipped
    | TagsUnreadable(file: string)                  // the tag reader raised on this file
    | RenderFailed(file: string, error: ItemError)  // `perTrack` raised on this file

  datatype Outcome = Written(document: string) | Halted(reason: Halt)

  /** `Config.url + feedDir.name + "/"`. */
  function FeedUrl(dirName: string): (r: string)
    ensures |r| == |Url| + |dirName| + 1 && Url <= r
    ensures r[|Url|..|r| - 1] == dirName && r[|r| - 1] == '/'
  {
    Url + dirName + "/"
  }

  /** Every file has a suffix the MIME table knows, as the filter guarantees. */
  predicate Typed(files: seq<DirEntry>) {
    forall i :: 0 <= i < |files| ==> Suffix(files[i].name) in AudioType
  }


  /** What one turn of the loop makes of a file: nothing (it is skipped), an
      item together with the channel header its tags would give, or a reason to
      stop. The loop uses the header only for the first file it adds. */
  datatype Step = Skipped | Added(item: string, header: string) | Failed(halt: Halt)

  function StepOf(url: string, e: DirEntry): (r: Step)
    requires Suffix(e.name) in AudioType
    ensures r.Skipped? <==> e.tags.Read? && Skip(e.tags.tags)
    ensures r.Added? ==> e.tags.Read? && |r.item| > 0
    ensures r.Failed? ==> r.halt.TagsUnreadable? || r.halt.RenderFailed?
  {
    match e.tags
    case Unreadable => Failed(TagsUnreadable(e.name))
    case Read(t) =>
      if Skip(t) then Skipped
      else
        match PerTrack(TextOf(t.title), e.name, AudioType[Suffix(e.name)], e.size, TextOf(t.artist),
                       t.duration, t.track.value, url)
        case Err(err) => Failed(RenderFailed(e.name, err))
        case Ok(item) => Added(item, Header(TextOf(t.album), TextOf(t.albumArtist), url))
  }

  /** The step of every file, in order. */
  function Steps(url: string, files: seq<DirEntry>): (r: seq<Step>)
    requires Typed(files)
    ensures |r| == |files| && forall k :: 0 <= k < |files| ==> r[k] == StepOf(url, files[k])
  {
    if files == [] then [] else [StepOf(url, files[0])] + Steps(url, files[1..])
  }

  /** The loop's variables: `perTrack`, `count` and `feedOut` ("" until set). */
  datatype Progress = Progress(items: string, count: nat, header: string)

  /** One turn of the loop: `perTrack += ...`, `count += 1`, and `feedOut`
      set when the first file is added. */
  function Next(p: Progress, s: Step): (r: Result<Progress, Halt>)
    ensures r.Err? <==> s.Failed?
    ensures r.Ok? ==> p.items <= r.value.items
    ensures r.Ok? ==> r.value.count == p.count + (if s.Added? then 1 else 0)
    ensures r.Ok? && p.count > 0 ==> r.value.header == p.header
  {
    match s
    case Skipped => Ok(p)
    case Failed(h) => Err(h)
    case Added(item, header) =>
      Ok(Progress(p.items + item, p.count + 1, if p.count + 1 == 1 then header else p.header))
  }

  lemma NextAdded(p: Progress, item: string, header: string)
    ensures Next(p, Added(item, header)) ==
      Ok(Progress(p.items + item, p.count + 1, if p.count + 1 == 1 then header else p.header))
  {
  }

  /** The loop run over the steps, one at a time, stopping at the first failure. */
  function Fold(steps: seq<Step>): (r: Result<Progress, Halt>)
    ensures r.Ok? ==> r.value.count <= |steps|
    ensures r.Ok? ==> forall k :: 0 <= k < |steps| ==> !steps[k].Failed?
  {
    if steps == [] then Ok(Progress("", 0, ""))
    else
      match Fold(steps[..|steps| - 1])
      case Err(h) => Err(h)
      case Ok(p) => Next(p, steps[|steps| - 1])
  }

  lemma FoldNext(steps: seq<Step>, i: nat)
    requires i < |steps| && Fold(steps[..i]).Ok?
    ensures Fold(steps[..i + 1]) == Next(Fold(steps[..i]).value, steps[i])
  {
    assert steps[..i + 1][..i] == steps[..i];
  }

  /** Once the loop has stopped, later files change nothing: the program has exited. */
  lemma {:induction false} FoldHalted(steps: seq<Step>, n: nat)
    requires n <= |steps| && Fold(steps[..n]).Err?
    ensures Fold(steps) == Fold(steps[..n])
    decreases |steps| - n
  {
    if n < |steps| {
      assert steps[..n + 1][..n] == steps[..n];
      FoldHalted(steps, n + 1);
    } else {
      assert steps[..n] == steps;
    }
  }

  /** What `main` ends with for the directory `dirName` and its listing. */
  function Run(dirName: string, listing: seq<DirEntry>): (r: Outcome)
    ensures r.Written? ==> Files(listing) != [] && |Closer| < |r.document|
    ensures r.Written? ==> r.document[|r.document| - |Closer|..] == Closer
  {
    var files := Files(listing);
    FilesHaveAudioType(listing);
    if files == [] then Halted(NoAudioFiles)
    else
      match Fold(Steps(FeedUrl(dirName), files))
      case Err(h) => Halted(h)
      case Ok(p) => if p.items == "" then Halted(NoValidTracks) else Written(p.header + p.items + Closer)
  }

  lemma StepUnreadable(url: string, e: DirEntry)
    requires Suffix(e.name) in AudioType && e.tags.Unreadable?
    ensures StepOf(url, e) == Failed(TagsUnreadable(e.name))
  {
  }

  lemma StepSkipped(url: string, e: DirEntry)
    requires Suffix(e.name) in AudioType && e.tags.Read? && Skip(e.tags.tags)
    ensures StepOf(url, e) == Skipped
  {
  }

  lemma StepRenderFailed(url: string, e: DirEntry, err: ItemError)
    requires Suffix(e.name) in AudioType && e.tags.Read? && !Skip(e.tags.tags)
    requires var t := e.tags.tags;
      PerTrack(TextOf(t.title), e.name, AudioType[Suffix(e.name)], e.size, TextOf(t.artist),
               t.duration, t.track.value, url) == Err(err)
    ensures StepOf(url, e) == Failed(RenderFailed(e.name, err))
  {
  }

  lemma StepAdded(url: string, e: DirEntry, item: string)
    requires Suffix(e.name) in AudioType && e.tags.Read? && !Skip(e.tags.tags)
    requires var t := e.tags.tags;
      PerTrack(TextOf(t.title), e.name, AudioType[Suffix(e.name)], e.size, TextOf(t.artist),
               t.duration, t.track.value, url) == Ok(item)
    ensures StepOf(url, e) == Added(item, Header(TextOf(e.tags.tags.album), TextOf(e.tags.tags.albumArtist), url))
  {
  }

  /** One turn of the loop over `file`, from the loop's variables `p`. */
  method Turn(url: string, file: DirEntry, p: Progress) returns (r: Result<Progress, Halt>)
    requires Suffix(file.name) in AudioType
    ensures r == Next(p, StepOf(url, file))
  {
    match file.tags {
      case Unreadable =>
        StepUnreadable(url, file);
        return Err(TagsUnreadable(file.name));
      case Read(tags) =>
        if Skip(tags) {
          StepSkipped(url, file);
          return Ok(p);
        }
        r := AddFile(url, file, p);
    }
  }

  /** The rest of a turn for a file whose tags are complete: render its item,
      append it, count it, and take the header from it if it is the first. */
  method AddFile(url: string, file: DirEntry, p: Progress) returns (r: Result<Progress, Halt>)
    requires Suffix(file.name) in AudioType && file.tags.Read? && !Skip(file.tags.tags)
    ensures r == Next(p, StepOf(url, file))
  {
    var tags := file.tags.tags;
    var item := PerTrack(TextOf(tags.title), file.name, AudioType[Suffix(file.name)], file.size,
                         TextOf(tags.artist), tags.duration, tags.track.value, url);
    if item.Err? {
      StepRenderFailed(url, file, item.error);
      return Err(RenderFailed(file.name, item.error));
    }
    StepAdded(url, file, item.value);
    var feedOut := p.header;
    if p.count + 1 == 1 {
      feedOut := Header(TextOf(tags.album), TextOf(tags.albumArtist), url);
    }
    NextAdded(p, item.value, Header(TextOf(tags.album), TextOf(tags.albumArtist), url));
    return Ok(Progress(p.items + item.value, p.count + 1, feedOut));
  }

  /** `main`, with the tag reader's results and the sizes taken from the listing
      and the document returned rather than written to `feed.xml`. */
  method GenerateFeed(dirName: string, listing: seq<DirEntry>) returns (outcome: Outcome)
    ensures outcome == Run(dirName, listing)
  {
    var files := Files(listing);
    FilesHaveAudioType(listing);
    if files == [] {
      return Halted(NoAudioFiles);
    }
    var perTrack := "";
    var count := 0;
    var feedOut := "";
    var url := Url + dirName + "/";
    ghost var steps := Steps(url, files);
    for i := 0 to |files|
      invariant Fold(steps[..i]) == Ok(Progress(perTrack, count, feedOut))
    {
      var next := Turn(url, files[i], Progress(perTrack, count, feedOut));
      FoldNext(steps, i);
      if next.Err? {
        FoldHalted(steps, i + 1);
        return Halted(next.error);
      }
      perTrack, count, feedOut := next.value.items, next.value.count, next.value.header;
    }
    assert steps[..|steps|] == steps;
    if perTrack == "" {
      return Halted(NoValidTracks);
    }
    outcome := Written(feedOut + perTrack + Closer);
  }

  // ---------------------------------------------------------------------------
  // The same run described from the front, step by step

  /** The items of the added files, in listing order. */
  function Items(steps: seq<Step>): (r: seq<string>)
    ensures |r| <= |steps|
  {
    if steps == [] then []
    else (if steps[0].Added? then [steps[0].item] else []) + Items(steps[1..])
  }

  /** The first failure, if any file fails. */
  function Failure(steps: seq<Step>): Option<Halt> {
    if steps == [] then None
    else if steps[0].Failed? then Some(steps[0].halt)
    else Failure(steps[1..])
  }

  /** The header of the first added file, "" when none is added. */
  function FirstHeader(steps: seq<Step>): string {
    if steps == [] then ""
    else if steps[0].Added? then steps[0].header
    else FirstHeader(steps[1..])
  }

  lemma {:induction false} ItemsAppend(steps: seq<Step>, s: Step)
    ensures Items(steps + [s]) == Items(steps) + if s.Added? then [s.item] else []
  {
    if steps != [] {
      assert (steps + [s])[1..] == steps[1..] + [s];
      ItemsAppend(steps[1..], s);
    }
  }

  lemma {:induction false} FailureAppend(steps: seq<Step>, s: Step)
    ensures Failure(steps + [s]) == if Failure(steps).Some? then Failure(steps)
                                   else if s.Failed? then Some(s.halt) else None
  {
    if steps != [] {
      assert (steps + [s])[1..] == steps[1..] + [s];
      FailureAppend(steps[1..], s);
    }
  }

  lemma {:induction false} FirstHeaderAppend(steps: seq<Step>, s: Step)
    ensures FirstHeader(steps + [s]) == if Items(steps) == [] && s.Added? then s.header
                                       else FirstHeader(steps)
  {
    if steps != [] {
      assert (steps + [s])[1..] == steps[1..] + [s];
      FirstHeaderAppend(steps[1..], s);
    }
  }

  /** The loop's variables for the steps so far when none failed: the items
      joined in order, their number, and the header of the first added file. */
  function Summary(steps: seq<Step>): Progress {
    Progress(Join(Items(steps)), |Items(steps)|, FirstHeader(steps))
  }

  /** The loop ends in the first failure if there is one, and otherwise with
      the summary of every step. */
  lemma {:induction false} FoldMeaning(steps: seq<Step>)
    ensures Failure(steps).Some? ==> Fold(steps) == Err(Failure(steps).value)
    ensures Failure(steps).None? ==> Fold(steps) == Ok(Summary(steps))
  {
    if steps != [] {
      var init := steps[..|steps| - 1];
      var s := steps[|steps| - 1];
      assert steps == init + [s];
      FoldMeaning(init);
      FailureAppend(init, s);
      ItemsAppend(init, s);
      FirstHeaderAppend(init, s);
      if s.Added? {
        JoinAppend(Items(init), [s.item]);
        assert Join([s.item]) == s.item;
      } else {
        assert Items(steps) == Items(init);
      }
    }
  }

  /** Items, each non-empty, join to nothing exactly when there are none. */
  lemma {:induction false} ItemsJoinEmpty(steps: seq<Step>)
    requires forall k :: 0 <= k < |steps| && steps[k].Added? ==> |steps[k].item| > 0
    ensures Join(Items(steps)) == "" <==> Items(steps) == []
  {
    if steps != [] {
      ItemsJoinEmpty(steps[1..]);
      if steps[0].Added? {
        var parts := Items(steps);
        assert parts[0] == steps[0].item;
      } else {
        assert Items(steps) == Items(steps[1..]);
      }
    }
  }

  /** What `main` produces, case by case: no audio file, a file that fails
      (the first one to do so), no added file, or the header of the first
      added file followed by the items of all added files in listing order
      and the closer. */
  function Expected(dirName: string, listing: seq<DirEntry>): Outcome {
    var files := Files(listing);
    FilesHaveAudioType(listing);
    var steps := Steps(FeedUrl(dirName), files);
    if files == [] then Halted(NoAudioFiles)
    else if Failure(steps).Some? then Halted(Failure(steps).value)
    else if Items(steps) == [] then Halted(NoValidTracks)
    else Written(FirstHeader(steps) + Join(Items(steps)) + Closer)
  }

  lemma RunMeaning(dirName: string, listing: seq<DirEntry>)
    ensures Run(dirName, listing) == Expected(dirName, listing)
  {
    var files := Files(listing);
    FilesHaveAudioType(listing);
    if files != [] {
      var steps := Steps(FeedUrl(dirName), files);
      FoldMeaning(steps);
      ItemsJoinEmpty(steps);
    }
  }

  // ---------------------------------------------------------------------------
  // What the document holds

  /** The program stops for want of audio files exactly when the listing has
      none: a file that fails gives its own reason. */
  lemma RunNoAudio(dirName: string, listing: seq<DirEntry>)
    ensures Run(dirName, listing) == Halted(NoAudioFiles) <==> forall e :: e in listing ==> !IsAudio(e)
  {
    FilesAreAudio(listing);
    KeepAudioEmpty(listing);
    if Files(listing) != [] {
      RunHasAudio(dirName, listing);
    }
  }

  lemma RunHasAudio(dirName: string, listing: seq<DirEntry>)
    requires Files(listing) != []
    ensures Run(dirName, listing) != Halted(NoAudioFiles)
  {
    FilesHaveAudioType(listing);
    var files := Files(listing);
    var steps := Steps(FeedUrl(dirName), files);
    FoldFailed(steps);
    if Fold(steps).Err? {
      var k :| 0 <= k < |steps| && steps[k] == Failed(Fold(steps).error);
      StepHalt(FeedUrl(dirName), files[k]);
    }
  }

  lemma StepHalt(url: string, e: DirEntry)
    requires Suffix(e.name) in AudioType
    ensures StepOf(url, e).Failed? ==> StepOf(url, e).halt != NoAudioFiles
  {
  }

  /** A run that stopped did so with the reason of one of its steps. */
  lemma {:induction false} FoldFailed(steps: seq<Step>)
    ensures Fold(steps).Err? ==> exists k :: 0 <= k < |steps| && steps[k] == Failed(Fold(steps).error)
  {
    if steps != [] {
      var init := steps[..|steps| - 1];
      FoldFailed(init);
      if Fold(init).Err? {
        var k :| 0 <= k < |init| && init[k] == Failed(Fold(init).error);
        assert steps[k] == init[k];
      }
    }
  }

  /** `perTrack` is empty exactly when `count` is 0. */
  lemma FoldCount(steps: seq<Step>)
    requires forall k :: 0 <= k < |steps| && steps[k].Added? ==> |steps[k].item| > 0
    ensures Fold(steps).Ok? ==> (Fold(steps).value.items == "" <==> Fold(steps).value.count == 0)
  {
    FoldMeaning(steps);
    ItemsJoinEmpty(steps);
  }

  /** The header is the one offered by the first added file. */
  lemma {:induction false} FirstHeaderIsFirst(steps: seq<Step>, k: nat)
    requires k < |steps| && steps[k].Added?
    requires forall j :: 0 <= j < k ==> !steps[j].Added?
    ensures FirstHeader(steps) == steps[k].header
  {
    if k > 0 {
      FirstHeaderIsFirst(steps[1..], k - 1);
    }
  }

  /** Once a file has been added, later files never change the header. */
  lemma {:induction false} HeaderKept(steps: seq<Step>, more: seq<Step>)
    requires Items(steps) != []
    ensures FirstHeader(steps + more) == FirstHeader(steps)
  {
    assert (steps + more)[0] == steps[0];
    if !steps[0].Added? {
      assert Items(steps) == Items(steps[1..]);
      assert (steps + more)[1..] == steps[1..] + more;
      HeaderKept(steps[1..], more);
    }
  }

  /** An added file had readable, complete tags; its item links the file at
      `url` followed by its name, repeats that link in quotes as its guid,
      shows its duration as `HH:MM:SS`, and takes its episode number and its
      publish date from the same track number; the header it offers names its
      album and album artist. */
  lemma AddedItem(url: string, e: DirEntry)
    requires Suffix(e.name) in AudioType && StepOf(url, e).Added?
    ensures e.tags.Read? && !Skip(e.tags.tags)
    ensures var t := e.tags.tags;
      t.track.Some? && t.duration.Some? && t.duration.value < Limit && t.track.value <= MaxEpisode
    ensures var t := e.tags.tags; var item := StepOf(url, e).item;
      Has(item, Attribute("url", url + e.name)) &&
      Has(item, Element("guid", Quoted(url + e.name))) &&
      Has(item, Element("itunes:duration", DurationText(t.duration.value).value)) &&
      Has(item, Element("itunes:episode", NatToString(t.track.value))) &&
      Has(item, Element("pubDate", FakeDate(t.track.value).value))
    ensures var t := e.tags.tags; var header := StepOf(url, e).header;
      header == Header(TextOf(t.album), TextOf(t.albumArtist), url) &&
      Has(header, Element("title", TextOf(t.album))) &&
      Has(header, Element("itunes:author", TextOf(t.albumArtist)))
  {
    var t := e.tags.tags;
    PerTrackFields(TextOf(t.title), e.name, AudioType[Suffix(e.name)], e.size, TextOf(t.artist),
                   t.duration.value, t.track.value, url);
    HeaderFields(TextOf(t.album), TextOf(t.albumArtist), url);
  }
}
