/** The stat model of users.go: the user record, the default record a new
    member receives, the text layout of the "!status" reply and the
    experience curve. */
module Users {
  import opened Strconv

  // Initial stats of every new user.
  const InitialLevel := 1
  const InitialExp := 0
  const InitialMaxHP := 100
  const InitialMaxMP := 50
  const InitialStrength := 1
  const InitialAgility := 1
  const InitialIntelligence := 1
  const InitialDefence := 1
  const InitialMDefence := 1

  /** One user's progression record; userID is the Discord snowflake in text form. */
  datatype User = User(
    userID: string,
    level: int,
    exp: int,
    maxHp: int,
    currentHP: int,
    maxMp: int,
    currentMP: int,
    strength: int,
    agility: int,
    intelligence: int,
    defence: int,
    mDefence: int)

  /** The invariant a freshly created record satisfies. */
  predicate WellFormed(u: User) {
    && u.level >= 1
    && u.exp >= 0
    && 0 <= u.currentHP <= u.maxHp
    && 0 <= u.currentMP <= u.maxMp
  }

  /** createDefaultUserStruct. */
  function CreateDefaultUser(id: string): (u: User)
    ensures u.userID == id && WellFormed(u)
    ensures u.level == 1 && u.exp == 0
    ensures u.maxHp == u.currentHP == 100 && u.maxMp == u.currentMP == 50
    ensures u.strength == u.agility == u.intelligence == u.defence == u.mDefence == 1
  {
    User(id, InitialLevel, InitialExp, InitialMaxHP, InitialMaxHP, InitialMaxMP, InitialMaxMP,
         InitialStrength, InitialAgility, InitialIntelligence, InitialDefence, InitialMDefence)
  }

  /** The user's String method: one stat per line, the two resource pairs
      separated by a tab, no trailing newline. */
  function StatsText(u: User): string {
    "Level " + Itoa(u.level) + "\n" +
    "Exp " + Itoa(u.exp) + "\n" +
    "Max HP " + Itoa(u.maxHp) +
    "\tCurrent HP " + Itoa(u.currentHP) + "\n" +
    "Max MP " + Itoa(u.maxMp) +
    "\tCurrent MP " + Itoa(u.currentMP) + "\n" +
    "Strength " + Itoa(u.strength) + "\n" +
    "Agility " + Itoa(u.agility) + "\n" +
    "Intelligence " + Itoa(u.intelligence) + "\n" +
    "Defence " + Itoa(u.defence) + "\n" +
    "Magic Defence " + Itoa(u.mDefence)
  }

  /** The lines of StatsText, in order: the line template filled with the
      eleven printed stats. */
  function StatsLines(u: User): seq<string> {
    LayoutLines(Rendered(u))
  }

  // Reading the stats text back.

  /** The pieces of s between occurrences of sep (always at least one piece). */
  function Split(s: string, sep: char): (parts: seq<string>)
    ensures |parts| >= 1
    decreases |s|
  {
    if s == [] then [[]]
    else
      var rest := Split(s[1..], sep);
      if s[0] == sep then [[]] + rest
      else [[s[0]] + rest[0]] + rest[1..]
  }

  /** The number after name at the start of line, if line has that form. */
  function ReadField(name: string, line: string): Option<int> {
    if |name| <= |line| && line[..|name|] == name then ReadInt(line[|name|..]) else None
  }

  /** Reads the eleven stats back from a StatsText rendering; the ID is not
      part of the text and is supplied by the caller. */
  function ParseStats(id: string, s: string): Option<User> {
    var lines := Split(s, '\n');
    if |lines| != 9 then None
    else
      var hp := Split(lines[2], '\t');
      var mp := Split(lines[3], '\t');
      if |hp| != 2 || |mp| != 2 then None
      else FromFields(id, StatsFields(lines, hp, mp))
  }

  function StatsFields(lines: seq<string>, hp: seq<string>, mp: seq<string>): seq<Option<int>>
    requires |lines| == 9 && |hp| == 2 && |mp| == 2
  {
    [ ReadField("Level ", lines[0]), ReadField("Exp ", lines[1]),
      ReadField("Max HP ", hp[0]), ReadField("Current HP ", hp[1]),
      ReadField("Max MP ", mp[0]), ReadField("Current MP ", mp[1]),
      ReadField("Strength ", lines[4]), ReadField("Agility ", lines[5]),
      ReadField("Intelligence ", lines[6]), ReadField("Defence ", lines[7]),
      ReadField("Magic Defence ", lines[8]) ]
  }

  function FromFields(id: string, f: seq<Option<int>>): Option<User> {
    if |f| == 11 && forall i :: 0 <= i < 11 ==> f[i].Some? then
      Some(User(id, f[0].value, f[1].value, f[2].value, f[3].value, f[4].value, f[5].value,
                f[6].value, f[7].value, f[8].value, f[9].value, f[10].value))
    else None
  }

  lemma {:induction false} SplitNoSep(a: string, sep: char)
    requires sep !in a
    ensures Split(a, sep) == [a]
    decreases |a|
  {
    if a != [] {
      SplitNoSep(a[1..], sep);
      assert [a[0]] + a[1..] == a;
    }
  }

  lemma {:induction false} SplitAtSep(a: string, sep: char, b: string)
    requires sep !in a
    ensures Split(a + [sep] + b, sep) == [a] + Split(b, sep)
    decreases |a|
  {
    var s := a + [sep] + b;
    if a == [] {
      assert s[1..] == b;
    } else {
      assert s[1..] == a[1..] + [sep] + b;
      SplitAtSep(a[1..], sep, b);
      assert [a[0]] + a[1..] == a;
    }
  }

  lemma {:induction false} SplitAtLastSep(a: string, sep: char, b: string)
    requires sep !in b
    ensures Split(a + [sep] + b, sep) == Split(a, sep) + [b]
    decreases |a|
  {
    var s := a + [sep] + b;
    if a == [] {
      assert s[1..] == b;
      SplitNoSep(b, sep);
    } else {
      assert s[1..] == a[1..] + [sep] + b;
      SplitAtLastSep(a[1..], sep, b);
    }
  }

  lemma ReadFieldAfter(name: string, x: string)
    ensures ReadField(name, name + x) == ReadInt(x)
  {
    var line := name + x;
    assert line[..|name|] == name;
    assert line[|name|..] == x;
  }

  // The layout with the eleven numbers already rendered, n[0] to n[10].

  function Layout(n: seq<string>): string
    requires |n| == 11
  {
    "Level " + n[0] + "\n" +
    "Exp " + n[1] + "\n" +
    "Max HP " + n[2] +
    "\tCurrent HP " + n[3] + "\n" +
    "Max MP " + n[4] +
    "\tCurrent MP " + n[5] + "\n" +
    "Strength " + n[6] + "\n" +
    "Agility " + n[7] + "\n" +
    "Intelligence " + n[8] + "\n" +
    "Defence " + n[9] + "\n" +
    "Magic Defence " + n[10]
  }

  function LayoutLines(n: seq<string>): seq<string>
    requires |n| == 11
  {
    [ "Level " + n[0],
      "Exp " + n[1],
      "Max HP " + n[2] + "\tCurrent HP " + n[3],
      "Max MP " + n[4] + "\tCurrent MP " + n[5],
      "Strength " + n[6],
      "Agility " + n[7],
      "Intelligence " + n[8],
      "Defence " + n[9],
      "Magic Defence " + n[10] ]
  }

  lemma LayoutJoined(n: seq<string>)
    requires |n| == 11
    ensures var L := LayoutLines(n);
      Layout(n) == L[0] + "\n" + L[1] + "\n" + L[2] + "\n" + L[3] + "\n" + L[4] + "\n" +
                   L[5] + "\n" + L[6] + "\n" + L[7] + "\n" + L[8]
  {
    var L := LayoutLines(n);
    var p2 := L[0] + "\n" + L[1] + "\n" + L[2];
    assert p2 == "Level " + n[0] + "\n" + "Exp " + n[1] + "\n" + "Max HP " + n[2] + "\tCurrent HP " + n[3];
    var p3 := p2 + "\n" + L[3];
    assert p3 == p2 + "\n" + "Max MP " + n[4] + "\tCurrent MP " + n[5];
  }

  lemma {:induction false} SplitNineLines(L: seq<string>)
    requires |L| == 9 && forall k :: 0 <= k < 9 ==> '\n' !in L[k]
    ensures Split(L[0] + "\n" + L[1] + "\n" + L[2] + "\n" + L[3] + "\n" + L[4] + "\n" +
                  L[5] + "\n" + L[6] + "\n" + L[7] + "\n" + L[8], '\n') == L
  {
    var p0 := L[0];
    var p1 := p0 + "\n" + L[1];
    var p2 := p1 + "\n" + L[2];
    var p3 := p2 + "\n" + L[3];
    var p4 := p3 + "\n" + L[4];
    var p5 := p4 + "\n" + L[5];
    var p6 := p5 + "\n" + L[6];
    var p7 := p6 + "\n" + L[7];
    SplitNoSep(p0, '\n');
    SplitAtLastSep(p0, '\n', L[1]);
    assert L[..2] == L[..1] + [L[1]];
    SplitAtLastSep(p1, '\n', L[2]);
    assert L[..3] == L[..2] + [L[2]];
    SplitAtLastSep(p2, '\n', L[3]);
    assert L[..4] == L[..3] + [L[3]];
    SplitAtLastSep(p3, '\n', L[4]);
    assert L[..5] == L[..4] + [L[4]];
    SplitAtLastSep(p4, '\n', L[5]);
    assert L[..6] == L[..5] + [L[5]];
    SplitAtLastSep(p5, '\n', L[6]);
    assert L[..7] == L[..6] + [L[6]];
    SplitAtLastSep(p6, '\n', L[7]);
    assert L[..8] == L[..7] + [L[7]];
    SplitAtLastSep(p7, '\n', L[8]);
    assert L[..9] == L[..8] + [L[8]];
    assert L[..9] == L;
  }

  lemma LayoutLinesNoNewline(n: seq<string>)
    requires |n| == 11 && forall s :: s in n ==> '\n' !in s
    ensures forall k :: 0 <= k < 9 ==> '\n' !in LayoutLines(n)[k]
  {
  }

  lemma LayoutSplit(n: seq<string>)
    requires |n| == 11 && forall s :: s in n ==> '\n' !in s
    ensures Split(Layout(n), '\n') == LayoutLines(n)
  {
    LayoutJoined(n);
    LayoutLinesNoNewline(n);
    SplitNineLines(LayoutLines(n));
  }

  /** A resource line splits at its tab into the maximum and the current part. */
  lemma ResourceLineSplit(maxName: string, maxValue: string, curName: string, curValue: string)
    requires '\t' !in maxName + maxValue && '\t' !in curName + curValue
    ensures Split(maxName + maxValue + ("\t" + curName) + curValue, '\t')
         == [maxName + maxValue, curName + curValue]
  {
    var a, b := maxName + maxValue, curName + curValue;
    assert maxName + maxValue + ("\t" + curName) + curValue == a + ['\t'] + b;
    SplitAtSep(a, '\t', b);
    SplitNoSep(b, '\t');
  }

  lemma LayoutResourceSplit(n: seq<string>)
    requires |n| == 11 && forall s :: s in n ==> '\t' !in s
    ensures Split(LayoutLines(n)[2], '\t') == ["Max HP " + n[2], "Current HP " + n[3]]
    ensures Split(LayoutLines(n)[3], '\t') == ["Max MP " + n[4], "Current MP " + n[5]]
  {
    assert "\tCurrent HP " == "\t" + "Current HP ";
    assert "\tCurrent MP " == "\t" + "Current MP ";
    assert n[2] in n && n[3] in n && n[4] in n && n[5] in n;
    ResourceLineSplit("Max HP ", n[2], "Current HP ", n[3]);
    ResourceLineSplit("Max MP ", n[4], "Current MP ", n[5]);
  }

  lemma LayoutFields(n: seq<string>, hp: seq<string>, mp: seq<string>)
    requires |n| == 11
    requires hp == ["Max HP " + n[2], "Current HP " + n[3]]
    requires mp == ["Max MP " + n[4], "Current MP " + n[5]]
    ensures StatsFields(LayoutLines(n), hp, mp) ==
      [ ReadInt(n[0]), ReadInt(n[1]), ReadInt(n[2]), ReadInt(n[3]), ReadInt(n[4]), ReadInt(n[5]),
        ReadInt(n[6]), ReadInt(n[7]), ReadInt(n[8]), ReadInt(n[9]), ReadInt(n[10]) ]
  {
    ReadFieldAfter("Level ", n[0]);
    ReadFieldAfter("Exp ", n[1]);
    ReadFieldAfter("Max HP ", n[2]);
    ReadFieldAfter("Current HP ", n[3]);
    ReadFieldAfter("Max MP ", n[4]);
    ReadFieldAfter("Current MP ", n[5]);
    ReadFieldAfter("Strength ", n[6]);
    ReadFieldAfter("Agility ", n[7]);
    ReadFieldAfter("Intelligence ", n[8]);
    ReadFieldAfter("Defence ", n[9]);
    ReadFieldAfter("Magic Defence ", n[10]);
  }

  /** Reading back the layout of eleven rendered numbers without separators
      gives the numbers they render. */
  lemma LayoutRoundTrip(id: string, n: seq<string>, v: seq<int>)
    requires |n| == 11 && |v| == 11
    requires forall s :: s in n ==> '\n' !in s && '\t' !in s
    requires forall k :: 0 <= k < 11 ==> ReadInt(n[k]) == Some(v[k])
    ensures ParseStats(id, Layout(n)) ==
      Some(User(id, v[0], v[1], v[2], v[3], v[4], v[5], v[6], v[7], v[8], v[9], v[10]))
  {
    LayoutSplit(n);
    LayoutResourceSplit(n);
    var L := LayoutLines(n);
    var hp := ["Max HP " + n[2], "Current HP " + n[3]];
    var mp := ["Max MP " + n[4], "Current MP " + n[5]];
    LayoutFields(n, hp, mp);
    var f := StatsFields(L, hp, mp);
    assert f == [Some(v[0]), Some(v[1]), Some(v[2]), Some(v[3]), Some(v[4]), Some(v[5]),
                 Some(v[6]), Some(v[7]), Some(v[8]), Some(v[9]), Some(v[10])];
    FromAllFields(id, v);
    assert ParseStats(id, Layout(n)) == FromFields(id, f);
  }

  lemma FromAllFields(id: string, v: seq<int>)
    requires |v| == 11
    ensures FromFields(id, [Some(v[0]), Some(v[1]), Some(v[2]), Some(v[3]), Some(v[4]), Some(v[5]),
                            Some(v[6]), Some(v[7]), Some(v[8]), Some(v[9]), Some(v[10])])
         == Some(User(id, v[0], v[1], v[2], v[3], v[4], v[5], v[6], v[7], v[8], v[9], v[10]))
  {
  }

  // Back to the user record.

  /** The stat values in the order StatsText prints them. */
  function StatValues(u: User): seq<int> {
    [u.level, u.exp, u.maxHp, u.currentHP, u.maxMp, u.currentMP,
     u.strength, u.agility, u.intelligence, u.defence, u.mDefence]
  }

  function Rendered(u: User): (n: seq<string>)
    ensures |n| == 11
  {
    seq(11, k requires 0 <= k < 11 => Itoa(StatValues(u)[k]))
  }

  lemma StatsTextIsLayout(u: User)
    ensures StatsText(u) == Layout(Rendered(u))
    ensures forall s :: s in Rendered(u) ==> '\n' !in s && '\t' !in s
    ensures forall k :: 0 <= k < 11 ==> ReadInt(Rendered(u)[k]) == Some(StatValues(u)[k])
  {
    var n := Rendered(u);
    forall k | 0 <= k < 11
      ensures ReadInt(n[k]) == Some(StatValues(u)[k]) && '\n' !in n[k] && '\t' !in n[k]
    {
      ReadItoa(StatValues(u)[k]);
      ItoaNoSeparators(StatValues(u)[k]);
    }
  }

  /** The rendering has exactly nine lines, the stats in a fixed order, and
      no trailing newline (the last line is not empty). */
  lemma StatsTextLines(u: User)
    ensures Split(StatsText(u), '\n') == StatsLines(u)
    ensures StatsLines(u)[8] != []
  {
    StatsTextIsLayout(u);
    LayoutSplit(Rendered(u));
  }

  /** The stats text loses none of the eleven stats: reading it back with the
      user's ID restores the whole record. */
  lemma StatsTextRoundTrip(u: User)
    ensures ParseStats(u.userID, StatsText(u)) == Some(u)
  {
    StatsTextIsLayout(u);
    LayoutRoundTrip(u.userID, Rendered(u), StatValues(u));
  }

  /** Two users with the same ID and the same stats text are the same record. */
  lemma StatsTextInjective(u: User, v: User)
    requires u.userID == v.userID && StatsText(u) == StatsText(v)
    ensures u == v
  {
    StatsTextRoundTrip(u);
    StatsTextRoundTrip(v);
  }

  function Cube(x: int): int {
    x * x * x
  }

  /** math.Round(num / den) for den > 0: the nearest integer, halves rounded
      away from zero. */
  function RoundQuotient(num: int, den: int): int
    requires den > 0
  {
    if num >= 0 then (2 * num + den) / (2 * den) else -((2 * -num + den) / (2 * den))
  }

  /** nextLevelExp: round(4 * level^3 / 5), computed exactly. The result is
      within 2/5 of the exact quotient, so it is the one nearest integer. */
  function NextLevelExp(level: int): (r: int)
    ensures -2 <= 4 * Cube(level) - 5 * r <= 2
  {
    if level >= 0 then (4 * Cube(level) + 2) / 5
    else
      assert Cube(-level) == -Cube(level);
      -((4 * Cube(-level) + 2) / 5)
  }

  /** NextLevelExp agrees with Go's math.Round applied to the quotient; a
      tie between two integers never arises because 5 is odd. */
  lemma NextLevelExpIsRound(level: int)
    ensures NextLevelExp(level) == RoundQuotient(4 * Cube(level), 5)
  {
    if level < 0 {
      assert Cube(-level) == -Cube(level);
    }
  }

  /** Two sample thresholds: level 1 needs 1 experience point, level 5 needs 100. */
  lemma NextLevelExpExamples()
    ensures NextLevelExp(1) == 1 && NextLevelExp(5) == 100
  {
  }

  lemma CubeStep(a: int)
    requires a >= 1
    ensures Cube(a + 1) - Cube(a) >= 7
  {
    assert Cube(a + 1) - Cube(a) == 3 * a * a + 3 * a + 1;
  }

  /** Each level from 1 on needs strictly more experience than the one before. */
  lemma {:induction false} NextLevelExpIncreasing(a: int, b: int)
    requires 1 <= a < b
    ensures NextLevelExp(a) < NextLevelExp(b)
    decreases b - a
  {
    CubeStep(b - 1);
    if a < b - 1 {
      NextLevelExpIncreasing(a, b - 1);
    }
  }
}
