// games/game_base.py: what a game derives from its name and number (the number
// of the level to load and the data file's name), whether it records and
// uploads, and the main loop: each frame the loop keeps running only while no
// finish flag is set, and a quit event stops it after the frame. Drawing, the
// clock, the physics step and JSON loading are left out; the data folder's
// listing and the frames' finish flags and events are inputs.

module GameBase {
  import opened Collections
  import opened Strings
  import Colors
  import GameRecorder
  import ReelUploader

  /** `name.lower().replace(' ', '_')`. */
  function SnakeName(name: string): (r: string)
    ensures |r| == |name| && ' ' !in r
  {
    var r := ReplaceChar(Lower(name), ' ', '_');
    assert forall i :: 0 <= i < |r| ==> r[i] != ' ';
    r
  }

  /** How many listed files start with the prefix. */
  function CountPrefixed(listing: seq<string>, prefix: string): (k: nat)
    ensures k <= |listing|
    ensures k == 0 <==> forall f :: f in listing ==> !StartsWith(f, prefix)
  {
    if listing == [] then 0
    else (if StartsWith(listing[0], prefix) then 1 else 0) + CountPrefixed(listing[1..], prefix)
  }

  /** A prefix of a prefix matches at least as many files. */
  lemma {:induction false} CountPrefixedMonotone(listing: seq<string>, short: string, long: string)
    requires StartsWith(long, short)
    ensures CountPrefixed(listing, long) <= CountPrefixed(listing, short)
  {
    if listing != [] {
      CountPrefixedMonotone(listing[1..], short, long);
      var f := listing[0];
      if StartsWith(f, long) {
        assert f[..|short|] == long[..|short|];
      }
    }
  }

  /** The level number: n itself, or for -1 the number of data files of the game minus one
      (the newest file, when the files are numbered from 0). */
  function GameNumber(n: int, snake: string, dataFiles: seq<string>): (r: int)
    ensures n != -1 ==> r == n
    ensures n == -1 ==> r == CountPrefixed(dataFiles, snake) - 1
    ensures r >= -1 || r == n
  {
    if n != -1 then n else CountPrefixed(dataFiles, snake) - 1
  }

  /** `f"{snake_name}_data_{n}.json"`. */
  function DataFileName(snake: string, n: int): (r: string)
    ensures StartsWith(r, snake + "_data_") && EndsWith(r, ".json")
  {
    var r := snake + "_data_" + IntToString(n) + ".json";
    assert r[..|snake + "_data_"|] == snake + "_data_";
    assert r[|r| - 5..] == ".json";
    r
  }

  /** Different level numbers open different files. */
  lemma DataFileNameInjective(snake: string, m: int, n: int)
    requires DataFileName(snake, m) == DataFileName(snake, n)
    ensures m == n
  {
    var p := snake + "_data_";
    var fm, fn := DataFileName(snake, m), DataFileName(snake, n);
    assert fm[|p|..|fm| - 5] == IntToString(m);
    assert fn[|p|..|fn| - 5] == IntToString(n);
    IntToStringInjective(m, n);
  }

  // ---- the main loop ----

  datatype Event = QuitEvent | OtherEvent(kind: int)

  /** What one frame brings: the game's finish flags and the events polled. */
  datatype Frame = Frame(finished: seq<bool>, events: seq<Event>)

  /** `running` after a frame: `not any(flags)`, then false again if a quit event came. */
  predicate KeepsRunning(f: Frame) {
    true !in f.finished && QuitEvent !in f.events
  }

  /** The first frame after which the loop has stopped. */
  function FirstStop(frames: seq<Frame>): (r: Option<nat>)
    ensures r.Some? ==> r.value < |frames| && !KeepsRunning(frames[r.value])
    ensures r.Some? ==> forall k :: 0 <= k < r.value ==> KeepsRunning(frames[k])
    ensures r.None? <==> forall k :: 0 <= k < |frames| ==> KeepsRunning(frames[k])
  {
    if |frames| == 0 then None
    else if !KeepsRunning(frames[0]) then Some(0)
    else
      var rest := FirstStop(frames[1..]);
      assert forall k :: 1 <= k < |frames| ==> frames[k] == frames[1..][k - 1];
      if rest.None? then None else Some(rest.value + 1)
  }

  /** The loop stops as soon as a single flag is set, although the documentation of
      `_finish_game_handler` speaks of all of them. */
  lemma OneFlagIsEnough(flags: seq<bool>, events: seq<Event>, i: nat)
    requires i < |flags| && flags[i]
    ensures !KeepsRunning(Frame(flags, events))
  {
    assert true in flags;
  }

  /** Without a quit event the loop goes on exactly when no flag is set. */
  lemma NoFlagKeepsRunning(flags: seq<bool>, events: seq<Event>)
    requires QuitEvent !in events
    ensures KeepsRunning(Frame(flags, events)) <==> forall i :: 0 <= i < |flags| ==> !flags[i]
  {
    if KeepsRunning(Frame(flags, events)) {
      forall i | 0 <= i < |flags| ensures !flags[i] {
        assert flags[i] in flags;
      }
    }
  }

  /** The side effects the model keeps, in the order `run` performs them. */
  datatype Action = StartRecording | StopRecording | Upload | Sleep | QuitPygame

  /** What `run` does after its loop. */
  function Teardown(hasRecorder: bool, hasUploader: bool): (r: seq<Action>)
    ensures |r| > 0 && r[|r| - 1] == QuitPygame
    ensures StopRecording in r <==> hasRecorder
    ensures Upload in r <==> hasUploader
    ensures Sleep in r <==> !hasUploader
    ensures |r| == (if hasRecorder then 3 else 2)
    ensures hasRecorder ==> r[0] == StopRecording
    ensures r[|r| - 2] == (if hasUploader then Upload else Sleep)
  {
    (if hasRecorder then [StopRecording] else []) + (if hasUploader then [Upload] else [Sleep]) + [QuitPygame]
  }

  class Game {
    const name: string
    const number: int
    const dataFile: string
    /** The recorder's recording name, when there is a recorder. */
    const recorder: Option<string>
    const uploader: Option<ReelUploader.Uploader>
    var running: bool

    /** `GameBase.__init__` up to the point where it reads the level: `playersColor` is what the
        subclass's `_get_players_color` returns for that level. */
    constructor (name: string, n: int, recording: bool, upload: bool, dataFiles: seq<string>,
                 playersColor: seq<Colors.Rgba>)
      ensures this.name == name
      ensures number == GameNumber(n, SnakeName(name), dataFiles)
      ensures dataFile == DataFileName(SnakeName(name), number)
      ensures recorder.Some? <==> recording
      ensures recorder.Some? ==> recorder.value == GameRecorder.RecordingName(name, number)
      ensures uploader.Some? <==> recording && upload
      ensures uploader.Some? ==> uploader.value == ReelUploader.NewUploader(name, number, None, Some(playersColor))
      ensures running
    {
      this.name := name;
      var snake := SnakeName(name);
      number := GameNumber(n, snake, dataFiles);
      dataFile := DataFileName(snake, GameNumber(n, snake, dataFiles));
      recorder := if recording then Some(GameRecorder.RecordingName(name, GameNumber(n, snake, dataFiles))) else None;
      uploader := if recording && upload then Some(ReelUploader.NewUploader(name, GameNumber(n, snake, dataFiles), None, Some(playersColor))) else None;
      running := true;
    }

    /** `_quit_handler`. */
    method QuitHandler()
      modifies this`running
      ensures !running
    {
      running := false;
    }

    /** The loop body, less drawing and physics. */
    method RunFrame(f: Frame)
      modifies this`running
      ensures running == KeepsRunning(f)
    {
      running := true !in f.finished;
      var i := 0;
      while i < |f.events|
        invariant 0 <= i <= |f.events|
        invariant running == (true !in f.finished && QuitEvent !in f.events[..i])
      {
        if f.events[i] == QuitEvent {
          QuitHandler();
        }
        assert f.events[..i + 1] == f.events[..i] + [f.events[i]];
        i := i + 1;
      }
      assert f.events[..i] == f.events;
    }

    /** `run` over the frames given. If the loop ends within them it returns after the
        frame that ended it, with the teardown done; otherwise all frames ran and the game
        is still running. */
    method Run(frames: seq<Frame>) returns (log: seq<Action>, framesRun: nat)
      modifies this`running
      ensures var start := if recorder.Some? then [StartRecording] else [];
        if !old(running) then framesRun == 0 && log == start + Teardown(recorder.Some?, uploader.Some?)
        else if FirstStop(frames).Some? then
          framesRun == FirstStop(frames).value + 1 && !running &&
          log == start + Teardown(recorder.Some?, uploader.Some?)
        else framesRun == |frames| && running && log == start
    {
      log := if recorder.Some? then [StartRecording] else [];
      ghost var start := log;
      ghost var wasRunning := running;
      framesRun := 0;
      while running && framesRun < |frames|
        invariant framesRun <= |frames|
        invariant !wasRunning ==> framesRun == 0 && !running
        invariant wasRunning ==> forall k :: 0 <= k < framesRun - (if running then 0 else 1) ==> KeepsRunning(frames[k])
        invariant wasRunning && !running ==> framesRun > 0 && !KeepsRunning(frames[framesRun - 1])
        invariant log == start
        decreases |frames| - framesRun
      {
        RunFrame(frames[framesRun]);
        framesRun := framesRun + 1;
      }
      if !running {
        log := log + Teardown(recorder.Some?, uploader.Some?);
      }
    }
  }
}
