// utils/games_generator/game_generator_base.py: what every level editor shares.
// It holds the screen, clock and space settings with their defaults, lets the
// user replace the screen size at the first prompt, merges the general
// settings into the level data, and names the saved file after the number of
// data files of the game that already exist. The window, the JSON dump and the
// directory listing are left out; the prompt answers and the listing are inputs.

module GameGeneratorBase {
  import opened Collections
  import opened Strings
  import opened Geometry
  import Colors
  import LevelData
  import GameBase

  /** Height of the control panel drawn below the level. */
  const ControlHeight := 100

  /** `f"{snake_name}_game_data_{n}.json"`. */
  function SaveFileName(snake: string, n: int): (r: string)
    ensures StartsWith(r, snake + "_game_data_") && EndsWith(r, ".json")
    ensures StartsWith(r, snake)
  {
    var r := snake + "_game_data_" + IntToString(n) + ".json";
    assert r[..|snake + "_game_data_"|] == snake + "_game_data_";
    assert r[..|snake|] == snake;
    assert r[|r| - 5..] == ".json";
    r
  }

  /** Different indices give different files. */
  lemma SaveFileNameInjective(snake: string, m: int, n: int)
    requires SaveFileName(snake, m) == SaveFileName(snake, n)
    ensures m == n
  {
    var p := snake + "_game_data_";
    var fm, fn := SaveFileName(snake, m), SaveFileName(snake, n);
    assert fm[|p|..|fm| - 5] == IntToString(m);
    assert fn[|p|..|fn| - 5] == IntToString(n);
    IntToStringInjective(m, n);
  }

  /** The editor's file for snake name s is the file the game with snake name `s + "_game"` reads. */
  lemma SaveFileIsGameFile(snake: string, n: int)
    ensures SaveFileName(snake, n) == GameBase.DataFileName(snake + "_game", n)
  {
    assert snake + "_game_data_" == (snake + "_game") + "_data_";
  }

  /** One more file starting with the prefix counts once more. */
  lemma {:induction false} CountPrefixedAppend(listing: seq<string>, f: string, prefix: string)
    ensures GameBase.CountPrefixed(listing + [f], prefix)
      == GameBase.CountPrefixed(listing, prefix) + (if StartsWith(f, prefix) then 1 else 0)
  {
    if listing != [] {
      assert (listing + [f])[1..] == listing[1..] + [f];
      CountPrefixedAppend(listing[1..], f, prefix);
    }
  }

  /** Two prefixes that the listed files start with alike count alike. */
  lemma {:induction false} CountPrefixedSame(listing: seq<string>, p: string, q: string)
    requires forall f :: f in listing ==> (StartsWith(f, p) <==> StartsWith(f, q))
    ensures GameBase.CountPrefixed(listing, p) == GameBase.CountPrefixed(listing, q)
  {
    if listing != [] {
      CountPrefixedSame(listing[1..], p, q);
    }
  }

  /** A save never replaces a file when the game's files are numbered below the count. */
  lemma SaveIsNew(listing: seq<string>, snake: string)
    requires forall f :: f in listing && StartsWith(f, snake) ==>
      exists k :: 0 <= k < GameBase.CountPrefixed(listing, snake) && f == SaveFileName(snake, k)
    ensures SaveFileName(snake, GameBase.CountPrefixed(listing, snake)) !in listing
  {
    var n := GameBase.CountPrefixed(listing, snake);
    var file := SaveFileName(snake, n);
    if file in listing {
      var k :| 0 <= k < n && file == SaveFileName(snake, k);
      SaveFileNameInjective(snake, k, n);
    }
  }

  /** When every file of the editor's prefix is also one of the game's, both prefixes count alike. */
  lemma CountGameFiles(listing: seq<string>, snake: string)
    requires forall f :: f in listing && StartsWith(f, snake) ==> StartsWith(f, snake + "_game")
    ensures GameBase.CountPrefixed(listing, snake) == GameBase.CountPrefixed(listing, snake + "_game")
  {
    var game := snake + "_game";
    forall f | f in listing ensures StartsWith(f, snake) <==> StartsWith(f, game) {
      if StartsWith(f, game) {
        assert f[..|snake|] == game[..|snake|];
      }
    }
    CountPrefixedSame(listing, snake, game);
  }

  /** When every file of the editor's prefix is also one of the game's, a game started with
      level -1 right after a save opens the file just saved. */
  lemma GameOpensNewestSave(listing: seq<string>, snake: string)
    requires forall f :: f in listing && StartsWith(f, snake) ==> StartsWith(f, snake + "_game")
    ensures var file := SaveFileName(snake, GameBase.CountPrefixed(listing, snake));
      GameBase.DataFileName(snake + "_game", GameBase.GameNumber(-1, snake + "_game", listing + [file])) == file
  {
    var game := snake + "_game";
    var n := GameBase.CountPrefixed(listing, snake);
    var file := SaveFileName(snake, n);
    CountGameFiles(listing, snake);
    SaveFileIsGameFile(snake, n);
    assert StartsWith(file, game) by {
      assert file[..|game|] == game;
    }
    CountPrefixedAppend(listing, file, game);
  }

  class Generator {
    const gameName: string
    var width: int
    var height: int
    var screenColor: Colors.Rgba
    var clockFps: int
    var spaceGravity: Point
    var spaceStep: real
    /** The level data written so far. */
    var data: LevelData.EditorData

    /** The defaults: a 400x600 gray screen, 60 frames per second, no gravity, step 60. */
    constructor (gameName: string)
      ensures this.gameName == gameName
      ensures width == 400 && height == 600 && screenColor == Colors.Value(Colors.GRAY)
      ensures clockFps == 60 && spaceGravity == Point(0, 0) && spaceStep == 60.0
      ensures data == LevelData.EmptyData
    {
      this.gameName := gameName;
      width, height := 400, 600;
      screenColor := Colors.Value(Colors.GRAY);
      clockFps := 60;
      spaceGravity := Point(0, 0);
      spaceStep := 60.0;
      data := LevelData.EmptyData;
    }

    /** `_add_general_data`: sets the screen, clock and space entries from the current settings
        and keeps every other entry. */
    method AddGeneralData()
      modifies this`data
      ensures data.screen == Some(LevelData.ScreenData(Point(width, height), screenColor))
      ensures data.clockFps == Some(clockFps)
      ensures data.space == Some(LevelData.SpaceData(spaceGravity, spaceStep))
      ensures data.boundaries == old(data.boundaries) && data.boundariesLines == old(data.boundariesLines)
      ensures data.bricks == old(data.bricks) && data.victoryLine == old(data.victoryLine)
      ensures data.logo == old(data.logo)
    {
      data := data.(screen := Some(LevelData.ScreenData(Point(width, height), screenColor)),
                    clockFps := Some(clockFps),
                    space := Some(LevelData.SpaceData(spaceGravity, spaceStep)));
    }

    /** The first part of `generate`: any answer other than "d"/"D" asks for the size, and
        `size` is `None` when either number fails to parse, which keeps the old size. */
    method Setup(answer: string, size: Option<Point>)
      modifies this`width, this`height, this`data
      ensures Upper(answer) != "D" && size.Some? ==> width == size.value.x && height == size.value.y
      ensures !(Upper(answer) != "D" && size.Some?) ==> width == old(width) && height == old(height)
      ensures data == old(data).(screen := Some(LevelData.ScreenData(Point(width, height), screenColor)),
                                 clockFps := Some(clockFps),
                                 space := Some(LevelData.SpaceData(spaceGravity, spaceStep)))
    {
      if Upper(answer) != "D" && size.Some? {
        width, height := size.value.x, size.value.y;
      }
      AddGeneralData();
    }

    /** The file `_save_data` writes, given the data folder's listing. */
    function SaveFile(listing: seq<string>): (r: string)
      ensures StartsWith(r, GameBase.SnakeName(gameName) + "_game_data_") && EndsWith(r, ".json")
    {
      var snake := GameBase.SnakeName(gameName);
      SaveFileName(snake, GameBase.CountPrefixed(listing, snake))
    }
  }
}
