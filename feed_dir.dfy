/** The directory side of the feed builder (class `FeedDir` in pd.py): which
    entries of the listing are audio files. The listing itself, the sizes and
    the tag reader's results are inputs. */
module FeedDir {
  import opened Config
  import opened Tag

  /** One entry of `path.iterdir()`: its name, its size in bytes as `stat()`
      reports it, and what `TinyTag.get` makes of it. */
  datatype DirEntry = DirEntry(name: string, size: nat, tags: TagRead)

  /** `s.rfind(c)`: the last index holding `c`, or -1. */
  function RFind(s: string, c: char): (i: int)
    ensures -1 <= i < |s|
    ensures i >= 0 ==> s[i] == c
    ensures forall k :: i < k < |s| ==> s[k] != c
  {
    if |s| == 0 then -1
    else if s[|s| - 1] == c then |s| - 1
    else RFind(s[..|s| - 1], c)
  }

  /** `PurePath.suffix`: from the last dot on, unless that dot leads the name or ends it. */
  function Suffix(name: string): (r: string)
    ensures r == "" <==>
      |name| == 0 || name[|name| - 1] == '.' || forall k :: 0 < k < |name| ==> name[k] != '.'
    ensures r != "" ==>
      2 <= |r| < |name| && EndsWith(name, r) && r[0] == '.' && forall k :: 0 < k < |r| ==> r[k] != '.'
  {
    var i := RFind(name, '.');
    if 0 < i < |name| - 1 then name[i..] else ""
  }

  predicate EndsWith(s: string, t: string) {
    |t| <= |s| && s[|s| - |t|..] == t
  }

  /** A recognised extension is the suffix of a name exactly when the name ends
      with it and has something before it: a file called ".mp3" has no suffix. */
  lemma SuffixIsExt(name: string, ext: string)
    requires ext in Exts
    ensures Suffix(name) == ext <==> |name| > |ext| && EndsWith(name, ext)
  {
    assert |ext| == 4 && ext[0] == '.' && ext[1] != '.' && ext[2] != '.' && ext[3] != '.';
    var i := RFind(name, '.');
    if Suffix(name) == ext {
      assert name[i..] == ext;
    }
  }

  /** The copies of `e` that `for ext in exts if file.suffix == ext` keeps. */
  function Matches(e: DirEntry, exts: seq<string>): (r: seq<DirEntry>)
    ensures r != [] <==> Suffix(e.name) in exts
    ensures forall x :: x in r ==> x == e
  {
    if exts == [] then []
    else (if Suffix(e.name) == exts[0] then [e] else []) + Matches(e, exts[1..])
  }

  /** `FeedDir.files`: `[file for file in listing for ext in Config.ext if file.suffix == ext]`. */
  function Files(listing: seq<DirEntry>): (r: seq<DirEntry>)
    ensures forall x :: x in r ==> x in listing && Suffix(x.name) in Exts
  {
    if listing == [] then [] else Matches(listing[0], Exts) + Files(listing[1..])
  }

  /** The entries an audio feed is about: names ending in a recognised extension
      with something in front of it. */
  predicate IsAudio(e: DirEntry) {
    exists ext :: ext in Exts && |e.name| > |ext| && EndsWith(e.name, ext)
  }

  /** The listing with everything but audio files dropped, order kept. */
  function KeepAudio(listing: seq<DirEntry>): (r: seq<DirEntry>)
    ensures |r| <= |listing|
  {
    if listing == [] then []
    else (if IsAudio(listing[0]) then [listing[0]] else []) + KeepAudio(listing[1..])
  }

  /** No extension is listed twice, so the inner loop keeps an entry at most once. */
  lemma MatchesExts(e: DirEntry)
    ensures Matches(e, Exts) == if Suffix(e.name) in Exts then [e] else []
  {
    var s := Suffix(e.name);
    assert Matches(e, [".aac"]) == (if s == ".aac" then [e] else []);
    assert Matches(e, [".ogg", ".aac"]) == (if s == ".ogg" then [e] else []) + Matches(e, [".aac"]);
    assert Matches(e, [".m4a", ".ogg", ".aac"]) ==
      (if s == ".m4a" then [e] else []) + Matches(e, [".ogg", ".aac"]);
    assert Matches(e, Exts) == (if s == ".mp3" then [e] else []) + Matches(e, [".m4a", ".ogg", ".aac"]);
  }

  /** An entry is kept exactly when it is an audio file. */
  lemma MatchesOnce(e: DirEntry)
    ensures Matches(e, Exts) == if IsAudio(e) then [e] else []
  {
    MatchesExts(e);
    if IsAudio(e) {
      var ext :| ext in Exts && |e.name| > |ext| && EndsWith(e.name, ext);
      SuffixIsExt(e.name, ext);
    } else {
      forall ext | ext in Exts ensures Suffix(e.name) != ext {
        SuffixIsExt(e.name, ext);
      }
    }
  }

  /** The comprehension keeps exactly the audio files, each once, in listing order. */
  lemma {:induction false} FilesAreAudio(listing: seq<DirEntry>)
    ensures Files(listing) == KeepAudio(listing)
  {
    if listing != [] {
      MatchesOnce(listing[0]);
      FilesAreAudio(listing[1..]);
    }
  }

  /** Every kept file has a suffix the MIME table knows. */
  lemma {:induction false} FilesHaveAudioType(listing: seq<DirEntry>)
    ensures forall e :: e in Files(listing) ==> Suffix(e.name) in AudioType
  {
    FilesAreAudio(listing);
    KeptAreAudio(listing);
    forall e | e in Files(listing) ensures Suffix(e.name) in AudioType {
      var ext :| ext in Exts && |e.name| > |ext| && EndsWith(e.name, ext);
      SuffixIsExt(e.name, ext);
    }
  }

  lemma {:induction false} KeptAreAudio(listing: seq<DirEntry>)
    ensures forall e :: e in KeepAudio(listing) ==> e in listing && IsAudio(e)
  {
    if listing != [] {
      KeptAreAudio(listing[1..]);
    }
  }

  /** Nothing is kept exactly when no entry is an audio file. */
  lemma {:induction false} KeepAudioEmpty(listing: seq<DirEntry>)
    ensures KeepAudio(listing) == [] <==> forall e :: e in listing ==> !IsAudio(e)
  {
    if listing != [] {
      KeepAudioEmpty(listing[1..]);
      assert forall e :: e in listing ==> e == listing[0] || e in listing[1..];
    }
  }

  /** Names no two entries share. */
  predicate DistinctNames(l: seq<DirEntry>) {
    forall i, j :: 0 <= i < j < |l| ==> l[i].name != l[j].name
  }

  /** A listing without repeated names gives a file list without repeated names. */
  lemma {:induction false} FilesDistinct(listing: seq<DirEntry>)
    requires DistinctNames(listing)
    ensures DistinctNames(Files(listing))
  {
    FilesAreAudio(listing);
    KeepDistinct(listing);
  }

  lemma {:induction false} KeepDistinct(listing: seq<DirEntry>)
    requires DistinctNames(listing)
    ensures DistinctNames(KeepAudio(listing))
  {
    if listing != [] {
      var rest := listing[1..];
      assert DistinctNames(rest) by {
        forall i, j | 0 <= i < j < |rest| ensures rest[i].name != rest[j].name {
          assert rest[i] == listing[i + 1] && rest[j] == listing[j + 1];
        }
      }
      KeepDistinct(rest);
      KeptAreAudio(rest);
      var head := if IsAudio(listing[0]) then [listing[0]] else [];
      var r := KeepAudio(listing);
      assert r == head + KeepAudio(rest);
      forall i, j | 0 <= i < j < |r| ensures r[i].name != r[j].name {
        if |head| == 1 && i == 0 {
          assert r[j] in rest;
          var k :| 0 <= k < |rest| && rest[k] == r[j];
          assert listing[k + 1] == r[j];
        }
      }
    }
  }
}
