// utils/media_uploaders/emojis.py: the list of all emoji characters, built by
// extending a list with every code point of eight inclusive ranges, and the
// colour -> emoji table whose entries the reel caption uses.

module Emojis {
  import opened Collections
  import Colors

  /** The eight inclusive code-point ranges, in the listed order. */
  const EmojiRanges: seq<(int, int)> := [
    (0x1F600, 0x1F64F),
    (0x1F300, 0x1F5FF),
    (0x1F680, 0x1F6FF),
    (0x1F900, 0x1F9FF),
    (0x1F1E6, 0x1F1FF),
    (0x2600, 0x26FF),
    (0x2700, 0x27BF),
    (0x1FA70, 0x1FAFF)
  ]

  /** A code point `chr` can turn into a Dafny char (not a surrogate). */
  predicate IsScalar(code: int) {
    0 <= code < 0xD800 || 0xE000 <= code < 0x11_0000
  }

  predicate ScalarRange(r: (int, int)) {
    forall code :: r.0 <= code <= r.1 ==> IsScalar(code)
  }

  predicate ScalarRanges(ranges: seq<(int, int)>) {
    forall k :: 0 <= k < |ranges| ==> ScalarRange(ranges[k])
  }

  /** Python's `chr`. */
  function Chr(code: int): (c: char)
    requires IsScalar(code)
    ensures c as int == code
  {
    code as char
  }

  /** `range(lo, hi + 1)`, mapped through `chr`. */
  function Span(lo: int, hi: int): (s: seq<char>)
    requires ScalarRange((lo, hi))
    ensures |s| == if hi < lo then 0 else hi - lo + 1
    ensures forall i :: 0 <= i < |s| ==> s[i] as int == lo + i
    decreases hi - lo
  {
    if hi < lo then [] else assert IsScalar(hi); Span(lo, hi - 1) + [Chr(hi)]
  }

  /** All characters of the ranges, range after range. */
  function Concat(ranges: seq<(int, int)>): seq<char>
    requires ScalarRanges(ranges)
  {
    if ranges == [] then [] else Span(ranges[0].0, ranges[0].1) + Concat(ranges[1..])
  }

  function Size(r: (int, int)): nat {
    if r.1 < r.0 then 0 else r.1 - r.0 + 1
  }

  function TotalSize(ranges: seq<(int, int)>): nat {
    if ranges == [] then 0 else Size(ranges[0]) + TotalSize(ranges[1..])
  }

  lemma {:induction false} ConcatSnoc(ranges: seq<(int, int)>, r: (int, int))
    requires ScalarRanges(ranges) && ScalarRange(r)
    ensures ScalarRanges(ranges + [r])
    ensures Concat(ranges + [r]) == Concat(ranges) + Span(r.0, r.1)
  {
    if ranges != [] {
      assert (ranges + [r])[1..] == ranges[1..] + [r];
      ConcatSnoc(ranges[1..], r);
    }
  }

  /** The module-level loop: `for start, end in ranges: all.extend(chr(code) for code in range(start, end + 1))`. */
  method ExtendAll(ranges: seq<(int, int)>) returns (all: seq<char>)
    requires ScalarRanges(ranges)
    ensures all == Concat(ranges)
  {
    all := [];
    var k := 0;
    while k < |ranges|
      invariant 0 <= k <= |ranges|
      invariant all == Concat(ranges[..k])
    {
      var (start, end) := ranges[k];
      var prefix := all;
      var code := start;
      while code < end + 1
        invariant start <= code || end < start
        invariant code == start || code <= end + 1
        invariant all == prefix + Span(start, code - 1)
      {
        assert IsScalar(code);
        all := all + [Chr(code)];
        code := code + 1;
      }
      assert all == prefix + Span(start, end);
      ConcatSnoc(ranges[..k], ranges[k]);
      assert ranges[..k + 1] == ranges[..k] + [ranges[k]];
      k := k + 1;
    }
    assert ranges[..k] == ranges;
  }

  lemma EmojiRangesScalar()
    ensures ScalarRanges(EmojiRanges)
  {
  }

  /** `ALL_EMOJIS`. */
  function AllEmojis(): seq<char> {
    EmojiRangesScalar();
    Concat(EmojiRanges)
  }

  /** The list holds (end - start + 1) characters per range. */
  lemma {:induction false} ConcatLength(ranges: seq<(int, int)>)
    requires ScalarRanges(ranges)
    ensures |Concat(ranges)| == TotalSize(ranges)
  {
    if ranges != [] { ConcatLength(ranges[1..]); }
  }

  lemma AllEmojisLength()
    ensures |AllEmojis()| == 1850
  {
    EmojiRangesScalar();
    ConcatLength(EmojiRanges);
  }

  /** A character is listed exactly when its code point lies in one of the ranges. */
  lemma {:induction false} ConcatMembership(ranges: seq<(int, int)>, c: char)
    requires ScalarRanges(ranges)
    ensures c in Concat(ranges) <==> exists k :: 0 <= k < |ranges| && ranges[k].0 <= c as int <= ranges[k].1
  {
    if ranges != [] {
      ConcatMembership(ranges[1..], c);
      var s := Span(ranges[0].0, ranges[0].1);
      if ranges[0].0 <= c as int <= ranges[0].1 {
        assert s[c as int - ranges[0].0] == c;
      }
      if exists k :: 1 <= k < |ranges| && ranges[k].0 <= c as int <= ranges[k].1 {
        var k :| 1 <= k < |ranges| && ranges[k].0 <= c as int <= ranges[k].1;
        assert ranges[1..][k - 1] == ranges[k];
      }
      if exists k :: 0 <= k < |ranges[1..]| && ranges[1..][k].0 <= c as int <= ranges[1..][k].1 {
        var k :| 0 <= k < |ranges[1..]| && ranges[1..][k].0 <= c as int <= ranges[1..][k].1;
        assert ranges[k + 1] == ranges[1..][k];
      }
    }
  }

  /** No two ranges share a code point. */
  predicate DisjointRanges(ranges: seq<(int, int)>) {
    forall k, l :: 0 <= k < l < |ranges| ==> ranges[k].1 < ranges[l].0 || ranges[l].1 < ranges[k].0
  }

  /** Disjoint ranges list every character once. */
  lemma {:induction false} ConcatNoDup(ranges: seq<(int, int)>)
    requires ScalarRanges(ranges) && DisjointRanges(ranges)
    ensures NoDup(Concat(ranges))
  {
    if ranges != [] {
      var s := Span(ranges[0].0, ranges[0].1);
      var rest := Concat(ranges[1..]);
      assert DisjointRanges(ranges[1..]) by {
        forall k, l | 0 <= k < l < |ranges[1..]|
          ensures ranges[1..][k].1 < ranges[1..][l].0 || ranges[1..][l].1 < ranges[1..][k].0
        {
          assert ranges[1..][k] == ranges[k + 1] && ranges[1..][l] == ranges[l + 1];
        }
      }
      ConcatNoDup(ranges[1..]);
      forall j | 0 <= j < |rest| ensures rest[j] !in s {
        ConcatMembership(ranges[1..], rest[j]);
        var k :| 0 <= k < |ranges[1..]| && ranges[1..][k].0 <= rest[j] as int <= ranges[1..][k].1;
        assert ranges[1..][k] == ranges[k + 1];
      }
      var r := s + rest;
      forall i, j | 0 <= i < j < |r| ensures r[i] != r[j] {
        if j < |s| {
        } else if i < |s| {
          assert r[j] == rest[j - |s|];
        } else {
          assert r[i] == rest[i - |s|] && r[j] == rest[j - |s|];
        }
      }
    }
  }

  /** `ALL_EMOJIS` holds no character twice. */
  lemma AllEmojisNoDup()
    ensures NoDup(AllEmojis())
  {
    EmojiRangesScalar();
    assert DisjointRanges(EmojiRanges);
    ConcatNoDup(EmojiRanges);
  }

  /** `color_emoji_mapping`, as its items in insertion order (written in four parts only to keep
      the proofs about positions small). */
  const ColorEmojiMapping: seq<(Colors.Color, string)> := Part0 + Part1 + Part2 + Part3
  const Part0: seq<(Colors.Color, string)> := [(Colors.BLACK, "\U{1F5A4}"), (Colors.GRAY, "\U{1FA76}"), (Colors.RED, "\U{2764}\U{FE0F}"), (Colors.GREEN, "\U{1F49A}"), (Colors.YELLOW, "\U{1F49B}"), (Colors.DARK_PURPLE, "\U{1F346}"), (Colors.ORANGE, "\U{1F9E1}"), (Colors.PURPLE, "\U{1F49C}"), (Colors.PINK, "\U{1F496}")]
  const Part1: seq<(Colors.Color, string)> := [(Colors.BLUE, "\U{1F499}"), (Colors.LIGHT_BLUE, "\U{1F499}"), (Colors.BROWN, "\U{1F90E}"), (Colors.PEACH, "\U{1F351}"), (Colors.WHITE, "\U{1F90D}"), (Colors.BANANA, "\U{1F34C}"), (Colors.LIGHT_PEACH, "\U{1F351}"), (Colors.NAVY, "\U{1F499}"), (Colors.LIGHT_PURPLE, "\U{1F49C}")]
  const Part2: seq<(Colors.Color, string)> := [(Colors.LIGHT_PINK, "\U{1F338}"), (Colors.LIGHT_ORANGE, "\U{1F34A}"), (Colors.YELLOW_LIME, "\U{1F34B}"), (Colors.TURQUOISE, "\U{1F48E}"), (Colors.DARK_GREEN, "\U{1F49A}"), (Colors.BORDON, "\U{1F377}"), (Colors.LIGHT_BROWN, "\U{1F342}"), (Colors.OLIVE, "\U{1F348}"), (Colors.UNIQUE_PURPLE, "\U{1F49C}")]
  const Part3: seq<(Colors.Color, string)> := [(Colors.UNIQUE_PINK, "\U{1F337}"), (Colors.LIGHT_YELLOW, "\U{1F33C}"), (Colors.OCEAN, "\U{1F30A}"), (Colors.DARK_BLUE, "\U{1F30C}"), (Colors.GRAY2, "\U{1F5A4}"), (Colors.BANANA2, "\U{1F34C}"), (Colors.GREEN2, "\U{1F952}"), (Colors.PURPLE2, "\U{1F346}")]

  lemma MappingInDeclarationOrder()
    ensures |ColorEmojiMapping| == 35
    ensures forall i :: 0 <= i < 35 ==> ColorEmojiMapping[i].0 == Colors.Member(i)
  {
    PartsInOrder();
    forall i | 0 <= i < 35 ensures ColorEmojiMapping[i].0 == Colors.Member(i) {
      if i < 9 { assert ColorEmojiMapping[i] == Part0[i]; }
      else if i < 18 { assert ColorEmojiMapping[i] == Part1[i - 9]; }
      else if i < 27 { assert ColorEmojiMapping[i] == Part2[i - 18]; }
      else { assert ColorEmojiMapping[i] == Part3[i - 27]; }
    }
  }

  lemma PartsInOrder()
    ensures |Part0| == 9 && forall i :: 0 <= i < 9 ==> Part0[i].0 == Colors.Member(i)
    ensures |Part1| == 9 && forall i :: 0 <= i < 9 ==> Part1[i].0 == Colors.Member(i + 9)
    ensures |Part2| == 9 && forall i :: 0 <= i < 9 ==> Part2[i].0 == Colors.Member(i + 18)
    ensures |Part3| == 8 && forall i :: 0 <= i < 8 ==> Part3[i].0 == Colors.Member(i + 27)
  {
  }

  /** `color_emoji_mapping[c]`: every member has an entry, found at its declaration position. */
  function EmojiOf(c: Colors.Color): (e: string)
    ensures (c, e) in ColorEmojiMapping
    ensures forall i :: 0 <= i < |ColorEmojiMapping| && ColorEmojiMapping[i].0 == c ==> ColorEmojiMapping[i].1 == e
  {
    MappingInDeclarationOrder();
    Colors.MemberIndex(c);
    var i := Colors.Index(c);
    forall j | 0 <= j < |ColorEmojiMapping| && ColorEmojiMapping[j].0 == c ensures j == i {
      Colors.IndexMember(j);
    }
    ColorEmojiMapping[i].1
  }

  /** Different members can share an emoji: the table is not injective. */
  lemma MappingNotInjective()
    ensures Colors.BLUE != Colors.LIGHT_BLUE && Colors.BLUE != Colors.NAVY
    ensures EmojiOf(Colors.BLUE) == EmojiOf(Colors.LIGHT_BLUE) == EmojiOf(Colors.NAVY)
  {
    MappingInDeclarationOrder();
    assert ColorEmojiMapping[9].1 == ColorEmojiMapping[10].1 == ColorEmojiMapping[16].1;
  }
}
