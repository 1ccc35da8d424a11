// The colour palette of utils/colors.py: an enum of 35 RGBA colours with
// accessors for all members (declaration order) and for the basic subset,
// and `str(c)` giving the member's name. `getattr(Color, name).value`, which
// the level generator uses to read a colour typed by the user, is `FromName`.

module Colors {
  import opened Collections
  import Strings

  datatype Rgba = Rgba(r: int, g: int, b: int, a: int)

  datatype Color =
    BLACK
    | GRAY
    | RED
    | GREEN
    | YELLOW
    | DARK_PURPLE
    | ORANGE
    | PURPLE
    | PINK
    | BLUE
    | LIGHT_BLUE
    | BROWN
    | PEACH
    | WHITE
    | BANANA
    | LIGHT_PEACH
    | NAVY
    | LIGHT_PURPLE
    | LIGHT_PINK
    | LIGHT_ORANGE
    | YELLOW_LIME
    | TURQUOISE
    | DARK_GREEN
    | BORDON
    | LIGHT_BROWN
    | OLIVE
    | UNIQUE_PURPLE
    | UNIQUE_PINK
    | LIGHT_YELLOW
    | OCEAN
    | DARK_BLUE
    | GRAY2
    | BANANA2
    | GREEN2
    | PURPLE2

  /** The member's `.value`. */
  function Value(c: Color): Rgba {
    match c
    case BLACK => Rgba(0, 0, 0, 255)
    case GRAY => Rgba(200, 180, 200, 255)
    case RED => Rgba(255, 0, 0, 255)
    case GREEN => Rgba(0, 170, 0, 255)
    case YELLOW => Rgba(255, 255, 0, 255)
    case DARK_PURPLE => Rgba(85, 0, 85, 255)
    case ORANGE => Rgba(255, 85, 0, 255)
    case PURPLE => Rgba(170, 0, 170, 255)
    case PINK => Rgba(255, 0, 170, 255)
    case BLUE => Rgba(0, 0, 255, 255)
    case LIGHT_BLUE => Rgba(0, 170, 255, 255)
    case BROWN => Rgba(85, 0, 0, 255)
    case PEACH => Rgba(255, 170, 85, 255)
    case WHITE => Rgba(255, 255, 255, 255)
    case BANANA => Rgba(255, 255, 170, 255)
    case LIGHT_PEACH => Rgba(255, 170, 170, 255)
    case NAVY => Rgba(0, 0, 85, 255)
    case LIGHT_PURPLE => Rgba(170, 170, 255, 255)
    case LIGHT_PINK => Rgba(255, 170, 255, 255)
    case LIGHT_ORANGE => Rgba(255, 170, 0, 255)
    case YELLOW_LIME => Rgba(170, 255, 85, 255)
    case TURQUOISE => Rgba(0, 170, 170, 255)
    case DARK_GREEN => Rgba(0, 85, 0, 255)
    case BORDON => Rgba(170, 85, 85, 255)
    case LIGHT_BROWN => Rgba(170, 85, 0, 255)
    case OLIVE => Rgba(102, 102, 0, 255)
    case UNIQUE_PURPLE => Rgba(102, 102, 255, 255)
    case UNIQUE_PINK => Rgba(255, 0, 153, 255)
    case LIGHT_YELLOW => Rgba(255, 255, 204, 255)
    case OCEAN => Rgba(0, 204, 204, 255)
    case DARK_BLUE => Rgba(51, 0, 153, 255)
    case GRAY2 => Rgba(120, 144, 120, 255)
    case BANANA2 => Rgba(240, 216, 160, 255)
    case GREEN2 => Rgba(0, 180, 0, 255)
    case PURPLE2 => Rgba(200, 36, 120, 255)
  }

  /** `str(c)`, which is the member's name. */
  function Name(c: Color): string {
    match c
    case BLACK => "BLACK"
    case GRAY => "GRAY"
    case RED => "RED"
    case GREEN => "GREEN"
    case YELLOW => "YELLOW"
    case DARK_PURPLE => "DARK_PURPLE"
    case ORANGE => "ORANGE"
    case PURPLE => "PURPLE"
    case PINK => "PINK"
    case BLUE => "BLUE"
    case LIGHT_BLUE => "LIGHT_BLUE"
    case BROWN => "BROWN"
    case PEACH => "PEACH"
    case WHITE => "WHITE"
    case BANANA => "BANANA"
    case LIGHT_PEACH => "LIGHT_PEACH"
    case NAVY => "NAVY"
    case LIGHT_PURPLE => "LIGHT_PURPLE"
    case LIGHT_PINK => "LIGHT_PINK"
    case LIGHT_ORANGE => "LIGHT_ORANGE"
    case YELLOW_LIME => "YELLOW_LIME"
    case TURQUOISE => "TURQUOISE"
    case DARK_GREEN => "DARK_GREEN"
    case BORDON => "BORDON"
    case LIGHT_BROWN => "LIGHT_BROWN"
    case OLIVE => "OLIVE"
    case UNIQUE_PURPLE => "UNIQUE_PURPLE"
    case UNIQUE_PINK => "UNIQUE_PINK"
    case LIGHT_YELLOW => "LIGHT_YELLOW"
    case OCEAN => "OCEAN"
    case DARK_BLUE => "DARK_BLUE"
    case GRAY2 => "GRAY2"
    case BANANA2 => "BANANA2"
    case GREEN2 => "GREEN2"
    case PURPLE2 => "PURPLE2"
  }

  /** Position of the member in the declaration. */
  function Index(c: Color): (i: nat)
    ensures i < 35
  {
    match c
    case BLACK => 0
    case GRAY => 1
    case RED => 2
    case GREEN => 3
    case YELLOW => 4
    case DARK_PURPLE => 5
    case ORANGE => 6
    case PURPLE => 7
    case PINK => 8
    case BLUE => 9
    case LIGHT_BLUE => 10
    case BROWN => 11
    case PEACH => 12
    case WHITE => 13
    case BANANA => 14
    case LIGHT_PEACH => 15
    case NAVY => 16
    case LIGHT_PURPLE => 17
    case LIGHT_PINK => 18
    case LIGHT_ORANGE => 19
    case YELLOW_LIME => 20
    case TURQUOISE => 21
    case DARK_GREEN => 22
    case BORDON => 23
    case LIGHT_BROWN => 24
    case OLIVE => 25
    case UNIQUE_PURPLE => 26
    case UNIQUE_PINK => 27
    case LIGHT_YELLOW => 28
    case OCEAN => 29
    case DARK_BLUE => 30
    case GRAY2 => 31
    case BANANA2 => 32
    case GREEN2 => 33
    case PURPLE2 => 34
  }

  /** The member declared at position i. */
  function Member(i: nat): Color
    requires i < 35
  {
    if i == 0 then BLACK
    else if i == 1 then GRAY
    else if i == 2 then RED
    else if i == 3 then GREEN
    else if i == 4 then YELLOW
    else if i == 5 then DARK_PURPLE
    else if i == 6 then ORANGE
    else if i == 7 then PURPLE
    else if i == 8 then PINK
    else if i == 9 then BLUE
    else if i == 10 then LIGHT_BLUE
    else if i == 11 then BROWN
    else if i == 12 then PEACH
    else if i == 13 then WHITE
    else if i == 14 then BANANA
    else if i == 15 then LIGHT_PEACH
    else if i == 16 then NAVY
    else if i == 17 then LIGHT_PURPLE
    else if i == 18 then LIGHT_PINK
    else if i == 19 then LIGHT_ORANGE
    else if i == 20 then YELLOW_LIME
    else if i == 21 then TURQUOISE
    else if i == 22 then DARK_GREEN
    else if i == 23 then BORDON
    else if i == 24 then LIGHT_BROWN
    else if i == 25 then OLIVE
    else if i == 26 then UNIQUE_PURPLE
    else if i == 27 then UNIQUE_PINK
    else if i == 28 then LIGHT_YELLOW
    else if i == 29 then OCEAN
    else if i == 30 then DARK_BLUE
    else if i == 31 then GRAY2
    else if i == 32 then BANANA2
    else if i == 33 then GREEN2
    else PURPLE2
  }

  lemma IndexMember(i: nat)
    requires i < 35
    ensures Index(Member(i)) == i
  {
  }

  lemma MemberIndex(c: Color)
    ensures Member(Index(c)) == c
  {
  }

  /** `Color.get_all()`, i.e. `[c for c in Color]`: the members in declaration order. */
  function All(): (r: seq<Color>)
    ensures |r| == 35
    ensures forall i :: 0 <= i < 35 ==> r[i] == Member(i)
  {
    seq(35, i requires 0 <= i < 35 => Member(i))
  }

  /** Every member is listed, at its declaration position. */
  lemma AllComplete(c: Color)
    ensures All()[Index(c)] == c
    ensures c in All()
  {
    MemberIndex(c);
  }

  /** No member is listed twice. */
  lemma AllNoDup()
    ensures NoDup(All())
  {
    var r := All();
    forall i, j | 0 <= i < j < |r| ensures r[i] != r[j] {
      IndexMember(i);
      IndexMember(j);
    }
  }

  /** `Color.get_basic_colors()`. */
  function BasicColors(): (r: seq<Color>)
    ensures |r| == 14
    ensures NoDup(r)
  {
    var r := [BLACK, GRAY, WHITE, RED, GREEN, BLUE, ORANGE, YELLOW, PURPLE, BROWN, LIGHT_BLUE, PINK, PEACH, YELLOW_LIME];
    assert forall i, j :: 0 <= i < j < |r| ==> Index(r[i]) < Index(r[j]) || Index(r[i]) > Index(r[j]);
    r
  }

  /** The first member of cs whose value is v. */
  function FindValue(cs: seq<Color>, v: Rgba): (r: Option<Color>)
    ensures r.Some? ==> r.value in cs && Value(r.value) == v
    ensures r.None? ==> forall c :: c in cs ==> Value(c) != v
  {
    if |cs| == 0 then None
    else if Value(cs[0]) == v then Some(cs[0])
    else FindValue(cs[1..], v)
  }

  /** The first member of cs whose name is s. */
  function FindName(cs: seq<Color>, s: string): (r: Option<Color>)
    ensures r.Some? ==> r.value in cs && Name(r.value) == s
    ensures r.None? ==> forall c :: c in cs ==> Name(c) != s
  {
    if |cs| == 0 then None
    else if Name(cs[0]) == s then Some(cs[0])
    else FindName(cs[1..], s)
  }

  /** `Color(v)`: the member whose value is v; `Color(v)` raises when there is none. */
  function FromValue(v: Rgba): (r: Option<Color>)
    ensures r.Some? ==> Value(r.value) == v
    ensures r.None? ==> forall c :: Value(c) != v
  {
    var r := FindValue(All(), v);
    if r.None? then
      assert forall c :: Value(c) != v by {
        forall c ensures Value(c) != v { AllComplete(c); }
      }
      r
    else r
  }

  /** `getattr(Color, s)` for a member name; every other string finds no member. */
  function FromName(s: string): (r: Option<Color>)
    ensures r.Some? ==> Name(r.value) == s
    ensures r.None? ==> forall c :: Name(c) != s
  {
    var r := FindName(All(), s);
    if r.None? then
      assert forall c :: Name(c) != s by {
        forall c ensures Name(c) != s { AllComplete(c); }
      }
      r
    else r
  }

  /** The 35 members have pairwise different values (so none is an alias of another). */
  lemma ValueInjective(c: Color, d: Color)
    requires Value(c) == Value(d)
    ensures c == d
  {
    if c == BLACK || c == GRAY || c == RED || c == GREEN || c == YELLOW || c == DARK_PURPLE || c == ORANGE {
      ValuesApartA(c, d);
    } else if c == PURPLE || c == PINK || c == BLUE || c == LIGHT_BLUE || c == BROWN || c == PEACH || c == WHITE {
      ValuesApartB(c, d);
    } else if c == BANANA || c == LIGHT_PEACH || c == NAVY || c == LIGHT_PURPLE || c == LIGHT_PINK || c == LIGHT_ORANGE || c == YELLOW_LIME {
      ValuesApartC(c, d);
    } else if c == TURQUOISE || c == DARK_GREEN || c == BORDON || c == LIGHT_BROWN || c == OLIVE || c == UNIQUE_PURPLE || c == UNIQUE_PINK {
      ValuesApartD(c, d);
    } else {
      ValuesApartE(c, d);
    }
  }

  // The comparisons of ValueInjective, seven members of c at a time.
  lemma ValuesApartA(c: Color, d: Color)
    requires (c == BLACK || c == GRAY || c == RED || c == GREEN || c == YELLOW || c == DARK_PURPLE || c == ORANGE) && Value(c) == Value(d)
    ensures c == d
  {
  }

  lemma ValuesApartB(c: Color, d: Color)
    requires (c == PURPLE || c == PINK || c == BLUE || c == LIGHT_BLUE || c == BROWN || c == PEACH || c == WHITE) && Value(c) == Value(d)
    ensures c == d
  {
  }

  lemma ValuesApartC(c: Color, d: Color)
    requires (c == BANANA || c == LIGHT_PEACH || c == NAVY || c == LIGHT_PURPLE || c == LIGHT_PINK || c == LIGHT_ORANGE || c == YELLOW_LIME) && Value(c) == Value(d)
    ensures c == d
  {
  }

  lemma ValuesApartD(c: Color, d: Color)
    requires (c == TURQUOISE || c == DARK_GREEN || c == BORDON || c == LIGHT_BROWN || c == OLIVE || c == UNIQUE_PURPLE || c == UNIQUE_PINK) && Value(c) == Value(d)
    ensures c == d
  {
  }

  lemma ValuesApartE(c: Color, d: Color)
    requires (c == LIGHT_YELLOW || c == OCEAN || c == DARK_BLUE || c == GRAY2 || c == BANANA2 || c == GREEN2 || c == PURPLE2) && Value(c) == Value(d)
    ensures c == d
  {
  }

  lemma FromValueValue(c: Color)
    ensures FromValue(Value(c)) == Some(c)
  {
    var r := FromValue(Value(c));
    ValueInjective(r.value, c);
  }

  /** Every channel is a byte and every colour is opaque. */
  lemma ValueChannels(c: Color)
    ensures var v := Value(c); 0 <= v.r <= 255 && 0 <= v.g <= 255 && 0 <= v.b <= 255 && v.a == 255
  {
  }

  /** A few characters that already tell the names apart. */
  function NameKey(s: string): (int, char, char, char) {
    if |s| == 0 then (0, ' ', ' ', ' ') else (|s|, s[0], s[|s| - 1], s[|s| / 2])
  }

  /** The key of the i-th member's name. */
  function KeyTable(i: nat): (int, char, char, char)
    requires i < 35
  {
    if i == 0 then (5, 'B', 'K', 'A')
    else if i == 1 then (4, 'G', 'Y', 'A')
    else if i == 2 then (3, 'R', 'D', 'E')
    else if i == 3 then (5, 'G', 'N', 'E')
    else if i == 4 then (6, 'Y', 'W', 'L')
    else if i == 5 then (11, 'D', 'E', 'P')
    else if i == 6 then (6, 'O', 'E', 'N')
    else if i == 7 then (6, 'P', 'E', 'P')
    else if i == 8 then (4, 'P', 'K', 'N')
    else if i == 9 then (4, 'B', 'E', 'U')
    else if i == 10 then (10, 'L', 'E', '_')
    else if i == 11 then (5, 'B', 'N', 'O')
    else if i == 12 then (5, 'P', 'H', 'A')
    else if i == 13 then (5, 'W', 'E', 'I')
    else if i == 14 then (6, 'B', 'A', 'A')
    else if i == 15 then (11, 'L', 'H', '_')
    else if i == 16 then (4, 'N', 'Y', 'V')
    else if i == 17 then (12, 'L', 'E', 'P')
    else if i == 18 then (10, 'L', 'K', '_')
    else if i == 19 then (12, 'L', 'E', 'O')
    else if i == 20 then (11, 'Y', 'E', 'W')
    else if i == 21 then (9, 'T', 'E', 'U')
    else if i == 22 then (10, 'D', 'N', 'G')
    else if i == 23 then (6, 'B', 'N', 'D')
    else if i == 24 then (11, 'L', 'N', '_')
    else if i == 25 then (5, 'O', 'E', 'I')
    else if i == 26 then (13, 'U', 'E', '_')
    else if i == 27 then (11, 'U', 'K', 'E')
    else if i == 28 then (12, 'L', 'W', 'Y')
    else if i == 29 then (5, 'O', 'N', 'E')
    else if i == 30 then (9, 'D', 'E', '_')
    else if i == 31 then (5, 'G', '2', 'A')
    else if i == 32 then (7, 'B', '2', 'A')
    else if i == 33 then (6, 'G', '2', 'E')
    else (7, 'P', '2', 'P')
  }

  /** Each name has the key its position in the table gives. */
  lemma NameKeyTable(c: Color)
    ensures NameKey(Name(c)) == KeyTable(Index(c))
  {
    if c == BLACK || c == GRAY || c == RED || c == GREEN || c == YELLOW || c == DARK_PURPLE || c == ORANGE {
      NameKeysOfA(c);
    } else if c == PURPLE || c == PINK || c == BLUE || c == LIGHT_BLUE || c == BROWN || c == PEACH || c == WHITE {
      NameKeysOfB(c);
    } else if c == BANANA || c == LIGHT_PEACH || c == NAVY || c == LIGHT_PURPLE || c == LIGHT_PINK || c == LIGHT_ORANGE || c == YELLOW_LIME {
      NameKeysOfC(c);
    } else if c == TURQUOISE || c == DARK_GREEN || c == BORDON || c == LIGHT_BROWN || c == OLIVE || c == UNIQUE_PURPLE || c == UNIQUE_PINK {
      NameKeysOfD(c);
    } else {
      NameKeysOfE(c);
    }
  }

  // NameKeyTable, seven members at a time.
  lemma NameKeysOfA(c: Color)
    requires c == BLACK || c == GRAY || c == RED || c == GREEN || c == YELLOW || c == DARK_PURPLE || c == ORANGE
    ensures NameKey(Name(c)) == KeyTable(Index(c))
  {
  }

  lemma NameKeysOfB(c: Color)
    requires c == PURPLE || c == PINK || c == BLUE || c == LIGHT_BLUE || c == BROWN || c == PEACH || c == WHITE
    ensures NameKey(Name(c)) == KeyTable(Index(c))
  {
  }

  lemma NameKeysOfC(c: Color)
    requires c == BANANA || c == LIGHT_PEACH || c == NAVY || c == LIGHT_PURPLE || c == LIGHT_PINK || c == LIGHT_ORANGE || c == YELLOW_LIME
    ensures NameKey(Name(c)) == KeyTable(Index(c))
  {
  }

  lemma NameKeysOfD(c: Color)
    requires c == TURQUOISE || c == DARK_GREEN || c == BORDON || c == LIGHT_BROWN || c == OLIVE || c == UNIQUE_PURPLE || c == UNIQUE_PINK
    ensures NameKey(Name(c)) == KeyTable(Index(c))
  {
  }

  lemma NameKeysOfE(c: Color)
    requires c == LIGHT_YELLOW || c == OCEAN || c == DARK_BLUE || c == GRAY2 || c == BANANA2 || c == GREEN2 || c == PURPLE2
    ensures NameKey(Name(c)) == KeyTable(Index(c))
  {
  }

  /** The 35 keys in the table are pairwise different. */
  lemma KeyTableInjective(i: nat, j: nat)
    requires i < 35 && j < 35 && KeyTable(i) == KeyTable(j)
    ensures i == j
  {
  }

  /** `str` tells members apart. */
  lemma NameInjective(c: Color, d: Color)
    requires Name(c) == Name(d)
    ensures c == d
  {
    NameKeyTable(c);
    NameKeyTable(d);
    KeyTableInjective(Index(c), Index(d));
    MemberIndex(c);
    MemberIndex(d);
  }

  /** Looking a member up by its own name finds it. */
  lemma FromNameName(c: Color)
    ensures FromName(Name(c)) == Some(c)
  {
    var r := FromName(Name(c));
    NameInjective(r.value, c);
  }

  /** Names are upper case, so upper-casing what the user typed keeps a member's name. */
  lemma NameUpperCase(c: Color)
    ensures Strings.Upper(Name(c)) == Name(c)
  {
    var n := Name(c);
    if c == BLACK || c == GRAY || c == RED || c == GREEN || c == YELLOW || c == DARK_PURPLE || c == ORANGE {
      NameUpperCaseA(c);
    } else if c == PURPLE || c == PINK || c == BLUE || c == LIGHT_BLUE || c == BROWN || c == PEACH || c == WHITE {
      NameUpperCaseB(c);
    } else if c == BANANA || c == LIGHT_PEACH || c == NAVY || c == LIGHT_PURPLE || c == LIGHT_PINK || c == LIGHT_ORANGE || c == YELLOW_LIME {
      NameUpperCaseC(c);
    } else if c == TURQUOISE || c == DARK_GREEN || c == BORDON || c == LIGHT_BROWN || c == OLIVE || c == UNIQUE_PURPLE || c == UNIQUE_PINK {
      NameUpperCaseD(c);
    } else {
      NameUpperCaseE(c);
    }
    assert forall i :: 0 <= i < |n| ==> Strings.UpperChar(n[i]) == n[i];
  }

  // The letters of every name, seven members at a time.
  lemma NameUpperCaseA(c: Color)
    requires c == BLACK || c == GRAY || c == RED || c == GREEN || c == YELLOW || c == DARK_PURPLE || c == ORANGE
    ensures forall i :: 0 <= i < |Name(c)| ==> !Strings.IsLowerAscii(Name(c)[i])
  {
  }

  lemma NameUpperCaseB(c: Color)
    requires c == PURPLE || c == PINK || c == BLUE || c == LIGHT_BLUE || c == BROWN || c == PEACH || c == WHITE
    ensures forall i :: 0 <= i < |Name(c)| ==> !Strings.IsLowerAscii(Name(c)[i])
  {
  }

  lemma NameUpperCaseC(c: Color)
    requires c == BANANA || c == LIGHT_PEACH || c == NAVY || c == LIGHT_PURPLE || c == LIGHT_PINK || c == LIGHT_ORANGE || c == YELLOW_LIME
    ensures forall i :: 0 <= i < |Name(c)| ==> !Strings.IsLowerAscii(Name(c)[i])
  {
  }

  lemma NameUpperCaseD(c: Color)
    requires c == TURQUOISE || c == DARK_GREEN || c == BORDON || c == LIGHT_BROWN || c == OLIVE || c == UNIQUE_PURPLE || c == UNIQUE_PINK
    ensures forall i :: 0 <= i < |Name(c)| ==> !Strings.IsLowerAscii(Name(c)[i])
  {
  }

  lemma NameUpperCaseE(c: Color)
    requires c == LIGHT_YELLOW || c == OCEAN || c == DARK_BLUE || c == GRAY2 || c == BANANA2 || c == GREEN2 || c == PURPLE2
    ensures forall i :: 0 <= i < |Name(c)| ==> !Strings.IsLowerAscii(Name(c)[i])
  {
  }
}
