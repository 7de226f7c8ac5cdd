/** Turning a YouTube playlist into journey chapters: the key test that selects the
    built-in demo chapters, the error for a playlist without items, and the
    mapping of each playlist item to a chapter record with its number, default
    title, watch link and shortened description. */
module Playlist {
  import opened Values
  import opened Outcomes

  /** The key used when `YT_KEY` is not set. */
  const FallbackKey: string := "AIzaSyBvEjKqkfPx8FfxH5JQv-demo-key"

  /** A UTF-16 code unit. A JavaScript string is a sequence of these, and its `length`, `substring`
      and `lastIndexOf` count and index them. */
  newtype CodeUnit = x: int | 0 <= x < 0x1_0000

  /** A JavaScript string, as the code units it is made of. */
  type JsString = seq<CodeUnit>

  /** The UTF-16 encoding of one character: a character above U+FFFF takes a surrogate pair. */
  function Utf16Char(c: char): (r: JsString)
    ensures |r| == (if c as int < 0x1_0000 then 1 else 2)
  {
    var v := c as int;
    if v < 0x1_0000 then [v as CodeUnit]
    else [(0xD800 + (v - 0x1_0000) / 0x400) as CodeUnit, (0xDC00 + (v - 0x1_0000) % 0x400) as CodeUnit]
  }

  /** The UTF-16 encoding of a string: the JavaScript string with the same characters. */
  function Utf16(s: string): (r: JsString)
    ensures |r| >= |s|
  {
    if s == [] then [] else Utf16Char(s[0]) + Utf16(s[1..])
  }

  /** A string without characters above U+FFFF has one code unit per character, each the character's code. */
  lemma {:induction false} Utf16OfBmp(s: string)
    requires forall i :: 0 <= i < |s| ==> s[i] as int < 0x1_0000
    ensures |Utf16(s)| == |s|
    ensures forall i :: 0 <= i < |s| ==> Utf16(s)[i] as int == s[i] as int
  {
    if s != [] {
      Utf16OfBmp(s[1..]);
      assert Utf16(s) == [s[0] as int as CodeUnit] + Utf16(s[1..]);
    }
  }

  /** The code units of a text written with characters up to U+FFFF only: one per character, its code
      (a character above U+FFFF, which such a text does not have, would read as U+FFFD). */
  function BmpUnits(s: string): (r: JsString)
    ensures |r| == |s|
  {
    seq(|s|, i requires 0 <= i < |s| => if s[i] as int < 0x1_0000 then s[i] as int as CodeUnit else 0xFFFD)
  }

  /** For such a text these are its UTF-16 code units. */
  lemma BmpUnitsAgree(s: string)
    requires forall i :: 0 <= i < |s| ==> s[i] as int < 0x1_0000
    ensures BmpUnits(s) == Utf16(s)
  {
    Utf16OfBmp(s);
  }

  /** A string of characters above U+FFFF only has two code units per character. */
  lemma {:induction false} Utf16OfAstral(s: string)
    requires forall i :: 0 <= i < |s| ==> s[i] as int >= 0x1_0000
    ensures |Utf16(s)| == 2 * |s|
  {
    if s != [] {
      Utf16OfAstral(s[1..]);
    }
  }

  /** Descriptions longer than this many code units are shortened. */
  const DescriptionLimit: nat := 150

  /** `' '` */
  const Space: CodeUnit := 0x20

  /** `'...'` */
  const Ellipsis: JsString := [0x2E, 0x2E, 0x2E]

  const WatchPrefix: string := "https://www.youtube.com/watch?v="

  /** The part of a playlist item the mapping reads: `snippet.title`, `snippet.description`
      (`None` when the field is absent) and `snippet.resourceId.videoId`. */
  datatype Item = Item(title: Option<string>, description: Option<JsString>, videoId: JsValue)

  /** The chapter record built for one item. The description is kept as code units, the units the
      shortening measures; titles and links are never measured and stay strings of characters. */
  datatype VideoChapter = VideoChapter(title: string, videoLink: string, description: JsString, chapterNo: nat)

  // ---------------------------------------------------------------- the key

  /** `s.includes(sub)` */
  predicate Includes(s: string, sub: string)
  {
    exists i | 0 <= i <= |s| - |sub| :: OccursAt(s, sub, i)
  }

  /** `sub` appears in `s` starting at index `i`. */
  predicate OccursAt(s: string, sub: string, i: int)
  {
    0 <= i && i + |sub| <= |s| && s[i..i + |sub|] == sub
  }

  /** `process.env.YT_KEY || FallbackKey`, an unset variable being `None`. */
  function ApiKey(ytKey: Option<string>): (key: string)
    ensures key != ""
    ensures ytKey.Some? && ytKey.value != "" ==> key == ytKey.value
  {
    if ytKey.Some? && ytKey.value != "" then ytKey.value else FallbackKey
  }

  /** `!YOUTUBE_API_KEY || YOUTUBE_API_KEY.includes('demo')`: the demo chapters are served. */
  predicate UsesDemo(key: string)
  {
    key == "" || Includes(key, "demo")
  }

  /** The fallback key is itself a demo key: "demo" starts at its index 26. */
  lemma FallbackIsDemo()
    ensures FallbackKey[26..30] == "demo"
    ensures UsesDemo(FallbackKey)
  {
    assert FallbackKey[26] == 'd' && FallbackKey[27] == 'e' && FallbackKey[28] == 'm' && FallbackKey[29] == 'o';
    assert OccursAt(FallbackKey, "demo", 26);
  }

  // ---------------------------------------------------------------- the description

  /** `s.lastIndexOf(' ')`: the index of the last space, or -1 when there is none. */
  function LastSpace(s: JsString): (r: int)
    ensures -1 <= r < |s|
    ensures r >= 0 ==> s[r] == Space
    ensures forall i :: r < i < |s| ==> s[i] != Space
  {
    if s == [] then -1
    else if s[|s| - 1] == Space then |s| - 1
    else LastSpace(s[..|s| - 1])
  }

  /** `r` is `d` shortened: a prefix of `d` plus "...", the prefix being the first 150 code units
      cut back to the last space among them, unless that space is at index 0 or absent. */
  predicate Shortened(d: JsString, r: JsString)
    requires |d| > DescriptionLimit
  {
    && |r| >= |Ellipsis|
    && r[|r| - |Ellipsis|..] == Ellipsis
    && var k := |r| - |Ellipsis|;
       && k <= DescriptionLimit
       && r[..k] == d[..k]
       && (|| (k == DescriptionLimit && forall i :: 0 < i < DescriptionLimit ==> d[i] != Space)
           || (0 < k < DescriptionLimit && d[k] == Space && forall i :: k < i < DescriptionLimit ==> d[i] != Space))
  }

  /** The description shortening of the item mapping. */
  function Truncate(d: JsString): (r: JsString)
    ensures |d| <= DescriptionLimit ==> r == d
    ensures |d| > DescriptionLimit ==> Shortened(d, r)
    ensures |r| <= DescriptionLimit + |Ellipsis|
  {
    if |d| <= DescriptionLimit then d
    else
      var truncated := d[..DescriptionLimit];
      var cut := LastSpace(truncated);
      if cut > 0 then truncated[..cut] + Ellipsis else truncated + Ellipsis
  }

  /** The description a chapter gets: an absent or empty one becomes ''. */
  function DescriptionOf(description: Option<JsString>): JsString
  {
    if description.Some? && description.value != [] then Truncate(description.value) else []
  }

  // ---------------------------------------------------------------- the mapping

  /** `snippet.title || \`Chapter ${index + 1}\`` */
  function TitleOf(title: Option<string>, index: nat): (r: string)
    ensures r != ""
    ensures title.Some? && title.value != "" ==> r == title.value
  {
    if title.Some? && title.value != "" then title.value else "Chapter " + NatToString(index + 1)
  }

  /** The record built for the item at position `index`. */
  function ToChapter(item: Item, index: nat): VideoChapter
  {
    VideoChapter(TitleOf(item.title, index), WatchPrefix + Template(item.videoId),
                 DescriptionOf(item.description), index + 1)
  }

  /** Chapters numbered 1, 2, ... in list order. */
  predicate Numbered(chapters: seq<VideoChapter>)
  {
    forall i :: 0 <= i < |chapters| ==> chapters[i].chapterNo == i + 1
  }

  /** `items.map((item, index) => ...)` */
  function ToChapters(items: seq<Item>): (r: seq<VideoChapter>)
    ensures |r| == |items|
    ensures Numbered(r)
  {
    seq(|items|, i requires 0 <= i < |items| => ToChapter(items[i], i))
  }

  /** What each chapter holds: the item's title or "Chapter N", the watch link of its video, and its
      description, kept when at most 150 code units long and otherwise shortened. */
  lemma ChapterFields(items: seq<Item>, i: nat)
    requires i < |items|
    ensures var c := ToChapters(items)[i]; var item := items[i];
      && (item.title.Some? && item.title.value != "" ==> c.title == item.title.value)
      && (item.title.None? || item.title.value == "" ==> c.title == "Chapter " + NatToString(i + 1))
      && c.videoLink[..|WatchPrefix|] == WatchPrefix
      && c.videoLink[|WatchPrefix|..] == Template(item.videoId)
      && (item.description.None? || item.description.value == [] ==> c.description == [])
      && (item.description.Some? && |item.description.value| <= DescriptionLimit ==> c.description == item.description.value)
      && (item.description.Some? && |item.description.value| > DescriptionLimit ==> Shortened(item.description.value, c.description))
  {
    var c := ToChapters(items)[i];
    assert c == ToChapter(items[i], i);
  }

  /** The limit counts code units, not characters: a description of 76 to 150 characters above U+FFFF
      (an emoji each) is shortened, since each of them takes two code units. */
  lemma AstralDescriptionShortened(s: string)
    requires DescriptionLimit / 2 < |s| <= DescriptionLimit
    requires forall i :: 0 <= i < |s| ==> s[i] as int >= 0x1_0000
    ensures |Utf16(s)| > DescriptionLimit
    ensures Shortened(Utf16(s), DescriptionOf(Some(Utf16(s))))
  {
    Utf16OfAstral(s);
  }

  /** Mapping a longer list maps the common prefix the same way: a chapter depends only on its item
      and its position. */
  lemma {:induction false} ChaptersAppend(items: seq<Item>, item: Item)
    ensures ToChapters(items + [item]) == ToChapters(items) + [ToChapter(item, |items|)]
  {
    var r := ToChapters(items + [item]);
    var s := ToChapters(items) + [ToChapter(item, |items|)];
    assert |r| == |s|;
    forall i | 0 <= i < |r|
      ensures r[i] == s[i]
    {
      if i < |items| {
        assert (items + [item])[i] == items[i];
      }
    }
  }

  // ---------------------------------------------------------------- the videos of a playlist

  /** The two chapters served with a demo key. */
  function DemoChapters(): (r: seq<VideoChapter>)
    ensures |r| == 2 && Numbered(r)
  {
    [ VideoChapter("Introduction to the Course", WatchPrefix + "Tn6-PIqc4UM",
                   BmpUnits("This is the first chapter of the course introducing basic concepts."), 1),
      VideoChapter("Advanced Topics", WatchPrefix + "dQw4w9WgXcQ",
                   BmpUnits("Deep dive into advanced topics and best practices."), 2) ]
  }

  /** `getPlaylistVideos`, the response's `items` field (`None` when absent) being a parameter in
      place of the request. */
  function PlaylistVideos(ytKey: Option<string>, items: Option<seq<Item>>): (r: Result<seq<VideoChapter>>)
    ensures UsesDemo(ApiKey(ytKey)) ==> r == Ok(DemoChapters())
    ensures !UsesDemo(ApiKey(ytKey)) && (items.None? || items.value == []) ==> r == Err(NoVideosFound)
    ensures !UsesDemo(ApiKey(ytKey)) && items.Some? && items.value != [] ==>
      r.Ok? && |r.value| == |items.value| > 0 && Numbered(r.value)
  {
    var key := ApiKey(ytKey);
    if UsesDemo(key) then Ok(DemoChapters())
    else if items.None? || |items.value| == 0 then Err(NoVideosFound)
    else Ok(ToChapters(items.value))
  }

  /** Without `YT_KEY` (or with it empty) the demo chapters are served, whatever the playlist holds. */
  lemma WithoutKey(ytKey: Option<string>, items: Option<seq<Item>>)
    requires ytKey.None? || ytKey.value == ""
    ensures PlaylistVideos(ytKey, items) == Ok(DemoChapters())
  {
    FallbackIsDemo();
  }

  /** With a real key every success is a non-empty, numbered list, one chapter per item. */
  lemma VideosResult(ytKey: Option<string>, items: Option<seq<Item>>)
    requires !UsesDemo(ApiKey(ytKey))
    ensures PlaylistVideos(ytKey, items).Ok? <==> items.Some? && items.value != []
    ensures PlaylistVideos(ytKey, items).Ok? ==> PlaylistVideos(ytKey, items).value == ToChapters(items.value)
    ensures PlaylistVideos(ytKey, items).Err? ==> Message(PlaylistVideos(ytKey, items).error) == "No videos found in playlist"
  {
  }

  /** The demo chapters have the shape of mapped chapters: watch links and short descriptions. */
  lemma DemoShape()
    ensures forall c :: c in DemoChapters() ==>
      c.videoLink[..|WatchPrefix|] == WatchPrefix && |c.description| <= DescriptionLimit && c.title != ""
  {
  }
}
