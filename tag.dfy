/** What the tag reader yields for one audio file, and the rule (class `Tag`
    in pd.py) that decides whether the file is skipped. */
module Tag {
  import opened Wrappers
  import opened Text

  /** The fields of a `TinyTag` result the feed builder reads. A missing value is
      `None`; the track number and the duration (already truncated to whole
      seconds) are non-negative integers. */
  datatype RawTags = RawTags(album: Option<string>, title: Option<string>,
                             albumArtist: Option<string>, artist: Option<string>,
                             track: Option<nat>, duration: Option<nat>)

  /** The outcome of `TinyTag.get` on one file: it raised, or it read the tags. */
  datatype TagRead = Unreadable | Read(tags: RawTags)

  /** `str(x)` of an optional text. */
  function TextOf(v: Option<string>): string {
    match v
    case None => "None"
    case Some(s) => s
  }

  /** `str(x)` of an optional number. */
  function NumberText(v: Option<nat>): string {
    match v
    case None => "None"
    case Some(n) => NatToString(n)
  }

  /** `bool(text.rstrip().replace("None", ""))`. */
  predicate Present(text: string)
    ensures Present(text) <==> !RepeatOf(RStrip(text, Whitespace), "None")
  {
    DeleteAll(RStrip(text, Whitespace), "None") != []
  }

  /** Independent reading of a missing text field: no value, or a value whose
      text, once trailing whitespace is gone, is nothing but copies of "None". */
  predicate Missing(v: Option<string>) {
    v.None? || RepeatOf(RStrip(v.value, Whitespace), "None")
  }

  lemma PresentText(v: Option<string>)
    ensures Present(TextOf(v)) <==> !Missing(v)
  {
    if v.None? {
      assert RStrip("None", Whitespace) == "None";
      assert RepeatOf("None"[4..], "None");
    }
  }

  /** A track number, when there is one, always counts as present. */
  lemma PresentNumber(v: Option<nat>)
    ensures Present(NumberText(v)) <==> v.Some?
  {
    if v.None? {
      assert RStrip("None", Whitespace) == "None";
      assert RepeatOf("None"[4..], "None");
    } else {
      var s := NatToString(v.value);
      assert s[|s| - 1] !in Whitespace by { assert IsDigit(s[|s| - 1]); }
      assert !("None" <= s) by { assert IsDigit(s[0]); }
    }
  }

  /** `Tag.skip`: a file is skipped when any of album, title, album artist,
      artist or track fails the presence test; the duration plays no part. */
  function Skip(t: RawTags): (skip: bool)
    ensures skip <==> Missing(t.album) || Missing(t.title) || Missing(t.albumArtist) ||
                      Missing(t.artist) || t.track.None?
  {
    PresentText(t.album);
    PresentText(t.title);
    PresentText(t.albumArtist);
    PresentText(t.artist);
    PresentNumber(t.track);
    !(Present(TextOf(t.album)) && Present(TextOf(t.title)) && Present(TextOf(t.albumArtist)) &&
      Present(TextOf(t.artist)) && Present(NumberText(t.track)))
  }

  /** Text made only of copies of "None", trailing whitespace aside, is absent. */
  lemma NoneCopiesAbsent()
    ensures !Present("None") && !Present("NoneNone") && !Present("None \t")
  {
    assert RStrip("None \t", Whitespace) == "None" by {
      assert RStrip("None ", Whitespace) == "None";
    }
    assert RepeatOf("NoneNone"[4..], "None");
  }

  lemma BlankAbsent()
    ensures !Present("") && !Present("  ")
  {
    assert RStrip("  ", Whitespace) == "" by {
      assert RStrip(" ", Whitespace) == "";
    }
  }

  /** Leading whitespace is not removed, so " None" counts as present. */
  lemma LeadingSpaceKept()
    ensures Present(" None")
  {
    assert RStrip(" None", Whitespace) == " None";
    assert DeleteAll(" None", "None") == " ";
  }

  /** What a deletion brings together is not searched again: "NoNonee" leaves "Noe". */
  lemma DeletionNotRescanned()
    ensures DeleteAll("NoNonee", "None") == "Noe" && Present("NoNonee")
  {
    assert DeleteAll("Nonee", "None") == "e";
    assert DeleteAll("oNonee", "None") == "oe";
    assert RStrip("NoNonee", Whitespace) == "NoNonee";
  }

  /** Changing the duration never changes whether a file is skipped. */
  lemma SkipIgnoresDuration(t: RawTags, d: Option<nat>)
    ensures Skip(t.(duration := d)) == Skip(t)
  {
  }
}
