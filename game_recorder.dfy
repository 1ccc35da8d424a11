// utils/game_recorder/game_recorder.py: the recording's name and the choice of
// the file that `stop` moves out of the captures folder. The hotkeys, the
// sleeps, the folder listing and `shutil.move` are I/O; the listing is a
// parameter and the result says which file would be moved.

module GameRecorder {
  import opened Strings
  import FileSelect

  /** `f"{game_name} {game_number}"`. */
  function RecordingName(gameName: string, gameNumber: int): (r: string)
    ensures StartsWith(r, gameName + " ")
    ensures r[|gameName| + 1..] == IntToString(gameNumber)
  {
    var r := gameName + " " + IntToString(gameNumber);
    assert r[..|gameName| + 1] == gameName + " ";
    r
  }

  /** Different games of the same name record under different names. */
  lemma RecordingNameInjective(gameName: string, m: int, n: int)
    requires RecordingName(gameName, m) == RecordingName(gameName, n)
    ensures m == n
  {
    IntToStringInjective(m, n);
  }

  datatype Outcome = NotSaved | Moved(file: string)

  /** `_move_file_to_target_dir`, with the filter as the code writes it: with no candidate
      nothing moves ("Not Saved"), otherwise the greatest name that starts with the recording
      name and ends with "mp4" is moved. */
  function MoveFileToTargetDir(recordingName: string, captures: seq<string>): (o: Outcome)
    ensures o.NotSaved? <==> forall f :: f in captures ==> !FileSelect.IsRecordingAsWritten(f, recordingName)
    ensures o.Moved? ==> o.file in captures && FileSelect.IsRecordingAsWritten(o.file, recordingName)
    ensures o.Moved? ==>
      forall f :: f in captures && FileSelect.IsRecordingAsWritten(f, recordingName) ==> LexLe(f, o.file)
  {
    var r := FileSelect.SelectAsWritten(captures, recordingName);
    if r.None? then NotSaved else Moved(r.value)
  }

  /** The moved file is fixed by the candidates alone: any candidate every other one is below is it. */
  lemma MovedIsTheGreatest(recordingName: string, captures: seq<string>, f: string)
    requires f in captures && FileSelect.IsRecordingAsWritten(f, recordingName)
    requires forall g :: g in captures && FileSelect.IsRecordingAsWritten(g, recordingName) ==> LexLe(g, f)
    ensures MoveFileToTargetDir(recordingName, captures) == Moved(f)
  {
    var o := MoveFileToTargetDir(recordingName, captures);
    LexLeAntisymmetric(f, o.file);
  }

  /** As written, stopping game 1's recording moves game 10's file when both are in the folder. */
  lemma MovesAnotherGamesFile(gameName: string)
    ensures MoveFileToTargetDir(RecordingName(gameName, 1), [gameName + " 1.mp4", gameName + " 10.mp4"]) ==
      Moved(gameName + " 10.mp4")
  {
    assert RecordingName(gameName, 1) == gameName + " 1";
    FileSelect.PrefixCollision(gameName);
  }

  /** The same choice with the recording name not running on into further digits. */
  function MoveFileToTargetDirFixed(recordingName: string, captures: seq<string>): (o: Outcome)
    ensures o.NotSaved? <==> forall f :: f in captures ==> !FileSelect.IsRecording(f, recordingName)
    ensures o.Moved? ==> o.file in captures && FileSelect.IsRecording(o.file, recordingName)
    ensures o.Moved? ==> forall f :: f in captures && FileSelect.IsRecording(f, recordingName) ==> LexLe(f, o.file)
  {
    var r := FileSelect.Select(captures, recordingName);
    if r.None? then NotSaved else Moved(r.value)
  }

  /** With the fixed choice, a file moved for game m is not a recording of any other game number. */
  lemma MovedBelongsToTheGame(gameName: string, m: int, n: int, captures: seq<string>)
    requires MoveFileToTargetDirFixed(RecordingName(gameName, m), captures).Moved?
    requires FileSelect.IsRecording(MoveFileToTargetDirFixed(RecordingName(gameName, m), captures).file,
      RecordingName(gameName, n))
    ensures m == n
  {
    var f := MoveFileToTargetDirFixed(RecordingName(gameName, m), captures).file;
    FileSelect.IsRecordingSeparatesNumbers(f, gameName, m, n);
  }
}
