// The "newest recording" choice that the recorder and the reel uploader both
// make: keep the listed names that start with a prefix and end with "mp4",
// then take the greatest by `max`, which orders str values by code point.
// A directory listing is a sequence of names; the listing itself is I/O.

module FileSelect {
  import opened Collections
  import opened Strings

  /** `[f for f in listing if keep(f)]`: the kept names, in listing order. */
  function Keep(listing: seq<string>, keep: string -> bool): (r: seq<string>)
    ensures |r| <= |listing|
    ensures forall f :: f in r <==> f in listing && keep(f)
  {
    if listing == [] then []
    else (if keep(listing[0]) then [listing[0]] else []) + Keep(listing[1..], keep)
  }

  /** `max(cands)`; `max` of an empty list raises, which is `None` here. */
  function Newest(cands: seq<string>): (r: Option<string>)
    ensures r.None? <==> |cands| == 0
    ensures r.Some? ==> r.value in cands && forall f :: f in cands ==> LexLe(f, r.value)
  {
    if |cands| == 0 then None else Some(MaxString(cands))
  }

  /** The filter exactly as the source writes it. */
  predicate IsRecordingAsWritten(f: string, prefix: string) {
    StartsWith(f, prefix) && EndsWith(f, "mp4")
  }

  function SelectAsWritten(listing: seq<string>, prefix: string): (r: Option<string>)
    ensures r.None? <==> forall f :: f in listing ==> !IsRecordingAsWritten(f, prefix)
    ensures r.Some? ==> r.value in listing && IsRecordingAsWritten(r.value, prefix)
    ensures r.Some? ==> forall f :: f in listing && IsRecordingAsWritten(f, prefix) ==> LexLe(f, r.value)
  {
    var cands := Keep(listing, f => IsRecordingAsWritten(f, prefix));
    assert forall f :: f in cands <==> f in listing && IsRecordingAsWritten(f, prefix);
    if |cands| > 0 then assert cands[0] in cands; Newest(cands) else Newest(cands)
  }

  /** Game 1's recording name is a prefix of game 10's, so game 10's file passes game 1's
      filter and, being greater, is the one chosen. */
  lemma PrefixCollision(name: string)
    ensures var listing := [name + " 1.mp4", name + " 10.mp4"];
      SelectAsWritten(listing, name + " 1") == Some(name + " 10.mp4")
  {
    var listing := [name + " 1.mp4", name + " 10.mp4"];
    var prefix := name + " 1";
    assert listing[1][..|prefix|] == prefix;
    assert listing[1][|listing[1]| - 3..] == "mp4";
    assert IsRecordingAsWritten(listing[1], prefix);
    var r := SelectAsWritten(listing, prefix);
    LexLeCommonPrefix(prefix, "0.mp4", ".mp4");
    assert listing[0] == prefix + ".mp4" && listing[1] == prefix + "0.mp4";
    assert !LexLe(listing[1], listing[0]);
  }

  predicate IsDigit(c: char) { '0' <= c <= '9' }

  /** The intended filter: the prefix must not run on into further digits of a longer number. */
  predicate IsRecording(f: string, prefix: string) {
    IsRecordingAsWritten(f, prefix) && (|f| == |prefix| || !IsDigit(f[|prefix|]))
  }

  function Select(listing: seq<string>, prefix: string): (r: Option<string>)
    ensures r.None? <==> forall f :: f in listing ==> !IsRecording(f, prefix)
    ensures r.Some? ==> r.value in listing && IsRecording(r.value, prefix)
    ensures r.Some? ==> forall f :: f in listing && IsRecording(f, prefix) ==> LexLe(f, r.value)
  {
    var cands := Keep(listing, f => IsRecording(f, prefix));
    assert forall f :: f in cands <==> f in listing && IsRecording(f, prefix);
    if |cands| > 0 then assert cands[0] in cands; Newest(cands) else Newest(cands)
  }

  /** After the first character, the decimal rendering of an int is all digits. */
  lemma IntToStringTail(n: int)
    ensures forall k :: 1 <= k < |IntToString(n)| ==> IsDigit(IntToString(n)[k])
  {
    if n < 0 {
      var s := IntToString(n);
      assert s[1..] == NatToString(-n);
      assert forall k :: 1 <= k < |s| ==> s[k] == s[1..][k - 1];
    }
  }

  /** With the intended filter, one file is never the recording of two different game numbers. */
  lemma {:induction false} IsRecordingSeparatesNumbers(f: string, name: string, m: int, n: int)
    requires IsRecording(f, name + " " + IntToString(m))
    requires IsRecording(f, name + " " + IntToString(n))
    ensures m == n
  {
    var p := name + " ";
    var sm, sn := IntToString(m), IntToString(n);
    IntToStringTail(m);
    IntToStringTail(n);
    assert (p + sm) == f[..|p + sm|] && (p + sn) == f[..|p + sn|];
    if |sm| < |sn| {
      assert false;
    } else if |sn| < |sm| {
      assert false;
    } else {
      assert sm == (p + sm)[|p|..] == (p + sn)[|p|..] == sn;
      IntToStringInjective(m, n);
    }
  }

  /** On the listing above, the intended filter turns game 10's file away. */
  lemma PrefixCollisionFixed(name: string)
    ensures var listing := [name + " 1.mp4", name + " 10.mp4"];
      Select(listing, name + " 1") == Some(name + " 1.mp4")
  {
    var listing := [name + " 1.mp4", name + " 10.mp4"];
    var prefix := name + " 1";
    assert listing[0] == prefix + ".mp4" && listing[1] == prefix + "0.mp4";
    assert listing[0][..|prefix|] == prefix && listing[0][|prefix|] == '.';
    assert listing[0][|listing[0]| - 3..] == "mp4";
    assert listing[1][|prefix|] == '0';
    assert IsRecording(listing[0], prefix) && !IsRecording(listing[1], prefix);
  }
}
