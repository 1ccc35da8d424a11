// utils/media_uploaders/reel_uploader.py: the strings the uploader derives
// from a game's name and number (file prefix, title, hashtags), the caption it
// assembles, and the video it picks. The instagrapi login and upload are
// network calls and are left out; the video folder's listing is a parameter.

module ReelUploader {
  import opened Collections
  import opened Strings
  import Colors
  import Emojis
  import FileSelect
  import GameRecorder

  const GameController := "\U{1F3AE}"
  const Chequered := "\U{1F3C1}"
  const VersusSign := "\U{1F19A}"

  /** `ReelUploader`'s fields; `text` and `colors` are `None` when not given. */
  datatype Uploader = Uploader(
    filePrefix: string,
    gameName: string,
    title: string,
    hashTags: string,
    text: Option<string>,
    colors: Option<seq<Colors.Rgba>>)

  /** `file_prefix`: the name alone for game number -1, otherwise "name number". */
  function FilePrefix(gameName: string, gameNumber: int): (r: string)
    ensures gameNumber == -1 ==> r == gameName
    ensures gameNumber != -1 ==> r == GameRecorder.RecordingName(gameName, gameNumber)
  {
    if gameNumber == -1 then gameName else gameName + " " + IntToString(gameNumber)
  }

  /** `f"🎮 {game_name.title()} 🏁"`. */
  function MakeTitle(gameName: string): (r: string)
    ensures |r| == |gameName| + 4
    ensures StartsWith(r, GameController + " ") && EndsWith(r, " " + Chequered)
    ensures r[2..|r| - 2] == Title(gameName)
  {
    var r := GameController + " " + Title(gameName) + " " + Chequered;
    assert r[..2] == GameController + " ";
    assert r[|r| - 2..] == " " + Chequered;
    r
  }

  const FixedTags: seq<string> := ["reel", "animation", "art", "mathematics", "satisfying"]

  /** The tags after "#game": the name run together, then each word, then the fixed ones. */
  function TagWords(gameName: string): seq<string> {
    var lower := Lower(gameName);
    [RemoveChar(lower, ' ')] + Split(lower, ' ') + FixedTags
  }

  /** `" #".join(["#game", ...])`. */
  function HashTags(gameName: string): (r: string)
    ensures r == "#game #" + Join(TagWords(gameName), " #")
  {
    var words := TagWords(gameName);
    JoinCons("#game", words, " #");
    Join(["#game"] + words, " #")
  }

  /** So the hashtags start with "#game #" and end with the last fixed tag. */
  lemma HashTagsShape(gameName: string)
    ensures StartsWith(HashTags(gameName), "#game #")
    ensures EndsWith(HashTags(gameName), "satisfying")
  {
    var words := TagWords(gameName);
    var r := HashTags(gameName);
    assert r[..7] == "#game #";
    JoinEndsWith(words, " #");
    assert words[|words| - 1] == "satisfying";
    var tail := Join(words, " #");
    assert r[|r| - 10..] == tail[|tail| - 10..];
  }

  /** `ReelUploader.__init__` without the login. */
  function NewUploader(gameName: string, gameNumber: int, text: Option<string>, playersColor: Option<seq<Colors.Rgba>>): (u: Uploader)
    ensures u.filePrefix == FilePrefix(gameName, gameNumber) && u.gameName == gameName
    ensures u.title == MakeTitle(gameName) && u.hashTags == HashTags(gameName)
    ensures u.text == text && u.colors == playersColor
  {
    Uploader(FilePrefix(gameName, gameNumber), gameName, MakeTitle(gameName), HashTags(gameName), text, playersColor)
  }

  // ---- the emojis of the players' colours ----

  /** `[(color, emoji) for color, emoji in mapping.items() if list(color.value) in colors]`. */
  function SelectEntries(entries: seq<(Colors.Color, string)>, colors: seq<Colors.Rgba>): (r: seq<(Colors.Color, string)>)
    ensures |r| <= |entries|
    ensures forall e :: e in r <==> e in entries && Colors.Value(e.0) in colors
  {
    if entries == [] then []
    else (if Colors.Value(entries[0].0) in colors then [entries[0]] else []) + SelectEntries(entries[1..], colors)
  }

  /** Entries whose colours come in declaration order, each colour once. */
  predicate InDeclarationOrder(entries: seq<(Colors.Color, string)>) {
    forall i, j :: 0 <= i < j < |entries| ==> Colors.Index(entries[i].0) < Colors.Index(entries[j].0)
  }

  lemma MappingInOrder()
    ensures InDeclarationOrder(Emojis.ColorEmojiMapping)
  {
    Emojis.MappingInDeclarationOrder();
    forall i, j | 0 <= i < j < 35
      ensures Colors.Index(Emojis.ColorEmojiMapping[i].0) < Colors.Index(Emojis.ColorEmojiMapping[j].0)
    {
      Colors.IndexMember(i);
      Colors.IndexMember(j);
    }
  }

  lemma {:induction false} SelectKeepsOrder(entries: seq<(Colors.Color, string)>, colors: seq<Colors.Rgba>)
    requires InDeclarationOrder(entries)
    ensures InDeclarationOrder(SelectEntries(entries, colors))
  {
    if entries != [] {
      var rest := entries[1..];
      assert InDeclarationOrder(rest) by {
        forall i, j | 0 <= i < j < |rest| ensures Colors.Index(rest[i].0) < Colors.Index(rest[j].0) {
          assert rest[i] == entries[i + 1] && rest[j] == entries[j + 1];
        }
      }
      SelectKeepsOrder(rest, colors);
      var tail := SelectEntries(rest, colors);
      if Colors.Value(entries[0].0) in colors {
        HeadBeforeRest(entries, colors);
        ConsInOrder(entries[0], tail);
      } else {
        assert SelectEntries(entries, colors) == [] + tail;
        assert [] + tail == tail;
      }
    }
  }

  /** Whatever is kept from the rest comes after the first entry. */
  lemma HeadBeforeRest(entries: seq<(Colors.Color, string)>, colors: seq<Colors.Rgba>)
    requires InDeclarationOrder(entries) && entries != []
    ensures forall x :: x in SelectEntries(entries[1..], colors) ==> Colors.Index(entries[0].0) < Colors.Index(x.0)
  {
    var rest := entries[1..];
    forall x | x in SelectEntries(rest, colors) ensures Colors.Index(entries[0].0) < Colors.Index(x.0) {
      var k :| 0 <= k < |rest| && rest[k] == x;
      assert rest[k] == entries[k + 1];
    }
  }

  lemma ConsInOrder(h: (Colors.Color, string), tail: seq<(Colors.Color, string)>)
    requires InDeclarationOrder(tail)
    requires forall x :: x in tail ==> Colors.Index(h.0) < Colors.Index(x.0)
    ensures InDeclarationOrder([h] + tail)
  {
    var r := [h] + tail;
    forall i, j | 0 <= i < j < |r| ensures Colors.Index(r[i].0) < Colors.Index(r[j].0) {
      assert r[j] == tail[j - 1];
      if i > 0 { assert r[i] == tail[i - 1]; }
    }
  }

  /** Only which colours the players have matters, not their order or repetitions. */
  lemma {:induction false} SelectDependsOnColourSet(entries: seq<(Colors.Color, string)>, c1: seq<Colors.Rgba>, c2: seq<Colors.Rgba>)
    requires forall v :: v in c1 <==> v in c2
    ensures SelectEntries(entries, c1) == SelectEntries(entries, c2)
  {
    if entries != [] { SelectDependsOnColourSet(entries[1..], c1, c2); }
  }

  function EmojiTexts(entries: seq<(Colors.Color, string)>): (r: seq<string>)
    ensures |r| == |entries| && forall i :: 0 <= i < |entries| ==> r[i] == entries[i].1
  {
    seq(|entries|, i requires 0 <= i < |entries| => entries[i].1)
  }

  /** The players' emojis in table order: one per table entry whose colour a player has. */
  function PlayerEmojis(colors: seq<Colors.Rgba>): (r: seq<string>)
    ensures |r| <= 35
  {
    Emojis.MappingInDeclarationOrder();
    EmojiTexts(SelectEntries(Emojis.ColorEmojiMapping, colors))
  }

  /** A player colour that is in the palette puts its member's emoji in, and each member at most once. */
  lemma PlayerEmojisContents(colors: seq<Colors.Rgba>, c: Colors.Color)
    ensures Colors.Value(c) in colors ==> Emojis.EmojiOf(c) in PlayerEmojis(colors)
    ensures InDeclarationOrder(SelectEntries(Emojis.ColorEmojiMapping, colors))
  {
    var sel := SelectEntries(Emojis.ColorEmojiMapping, colors);
    MappingInOrder();
    SelectKeepsOrder(Emojis.ColorEmojiMapping, colors);
    if Colors.Value(c) in colors {
      var e := Emojis.EmojiOf(c);
      assert (c, e) in sel;
      var k :| 0 <= k < |sel| && sel[k] == (c, e);
      assert PlayerEmojis(colors)[k] == e;
    }
  }

  // ---- the caption ----

  /** The emojis joined by the "VS" sign. */
  function VersusLine(colors: seq<Colors.Rgba>): string {
    Join(PlayerEmojis(colors), VersusSign)
  }

  /** Python truthiness of the optional text and colour list. */
  predicate HasText(u: Uploader) { u.text.Some? && u.text.value != "" }
  predicate HasColors(u: Uploader) { u.colors.Some? && u.colors.value != [] }

  /** The lines of the caption, as `_get_caption` collects them. */
  function CaptionTexts(u: Uploader): (texts: seq<string>)
    ensures 2 <= |texts| <= 3
  {
    var first := if HasColors(u) then u.title + "\n" + VersusLine(u.colors.value) else u.title;
    [first] + (if HasText(u) then [u.text.value] else []) + [u.hashTags]
  }

  /** The caption: its lines joined by newlines. */
  function Caption(u: Uploader): string {
    Join(CaptionTexts(u), "\n")
  }

  /** `_get_caption`. */
  method GetCaption(u: Uploader) returns (caption: string)
    ensures caption == Caption(u)
  {
    var texts := [u.title];
    ghost var middle: seq<string> := [];
    if HasText(u) {
      texts := texts + [u.text.value];
      middle := [u.text.value];
    }
    assert texts == [u.title] + middle;
    if HasColors(u) {
      var versus := VersusLine(u.colors.value);
      texts := texts[0 := texts[0] + "\n" + versus];
      assert texts == [u.title + "\n" + versus] + middle;
    }
    texts := texts + [u.hashTags];
    caption := Join(texts, "\n");
  }

  lemma {:induction false} JoinLast(parts: seq<string>, sep: string)
    requires |parts| >= 2
    ensures Join(parts, sep) == Join(parts[..|parts| - 1], sep) + sep + parts[|parts| - 1]
    decreases |parts|
  {
    if |parts| > 2 {
      JoinLast(parts[1..], sep);
      assert parts[1..][..|parts[1..]| - 1] == parts[1..|parts| - 1];
      JoinCons(parts[0], parts[1..|parts| - 1], sep);
      assert [parts[0]] + parts[1..|parts| - 1] == parts[..|parts| - 1];
    }
  }

  /** The caption opens with the title and closes with the hashtags on a line of their own. */
  lemma CaptionShape(u: Uploader)
    ensures StartsWith(Join(CaptionTexts(u), "\n"), u.title)
    ensures EndsWith(Join(CaptionTexts(u), "\n"), "\n" + u.hashTags)
  {
    CaptionStarts(u);
    CaptionEnds(u);
  }

  lemma CaptionStarts(u: Uploader)
    ensures StartsWith(Join(CaptionTexts(u), "\n"), u.title)
  {
    var texts := CaptionTexts(u);
    JoinStartsWith(texts, "\n");
    assert StartsWith(texts[0], u.title) by {
      assert texts[0][..|u.title|] == u.title;
    }
    StartsWithTransitive(Join(texts, "\n"), texts[0], u.title);
  }

  lemma CaptionEnds(u: Uploader)
    ensures EndsWith(Join(CaptionTexts(u), "\n"), "\n" + u.hashTags)
  {
    var texts := CaptionTexts(u);
    assert |texts| >= 2 && texts[|texts| - 1] == u.hashTags;
    JoinLast(texts, "\n");
    var c := Join(texts, "\n");
    var init := Join(texts[..|texts| - 1], "\n");
    assert c == init + ("\n" + u.hashTags);
    assert c[|c| - |"\n" + u.hashTags|..] == "\n" + u.hashTags;
  }

  /** A non-empty text is the caption's second line; an empty one is dropped. */
  lemma CaptionText(u: Uploader)
    ensures HasText(u) <==> |CaptionTexts(u)| == 3
    ensures HasText(u) ==> CaptionTexts(u)[1] == u.text.value
  {
  }

  // ---- the video ----

  /** The file `upload` sends: the greatest name in the video folder that starts with the file
      prefix and ends with "mp4", as the code writes the filter; `None` where `max` of an empty
      list raises. */
  function VideoFile(u: Uploader, videos: seq<string>): (r: Option<string>)
    ensures r.None? <==> forall f :: f in videos ==> !FileSelect.IsRecordingAsWritten(f, u.filePrefix)
    ensures r.Some? ==> r.value in videos && FileSelect.IsRecordingAsWritten(r.value, u.filePrefix)
    ensures r.Some? ==>
      forall f :: f in videos && FileSelect.IsRecordingAsWritten(f, u.filePrefix) ==> LexLe(f, r.value)
  {
    FileSelect.SelectAsWritten(videos, u.filePrefix)
  }

  /** The same choice with the file prefix not running on into further digits. */
  function VideoFileFixed(u: Uploader, videos: seq<string>): (r: Option<string>)
    ensures r.None? <==> forall f :: f in videos ==> !FileSelect.IsRecording(f, u.filePrefix)
    ensures r.Some? ==> r.value in videos && FileSelect.IsRecording(r.value, u.filePrefix)
    ensures r.Some? ==> forall f :: f in videos && FileSelect.IsRecording(f, u.filePrefix) ==> LexLe(f, r.value)
  {
    FileSelect.Select(videos, u.filePrefix)
  }

  /** With the fixed choice, the video uploaded for game m is not a recording of another game. */
  lemma UploadedBelongsToTheGame(u: Uploader, videos: seq<string>, name: string, m: int, n: int)
    requires u.filePrefix == GameRecorder.RecordingName(name, m)
    requires VideoFileFixed(u, videos).Some?
    requires FileSelect.IsRecording(VideoFileFixed(u, videos).value, GameRecorder.RecordingName(name, n))
    ensures m == n
  {
    FileSelect.IsRecordingSeparatesNumbers(VideoFileFixed(u, videos).value, name, m, n);
  }
}
