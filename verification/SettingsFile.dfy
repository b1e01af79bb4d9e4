/** IME98.CFG as its users write it: what each line means and that the reader loads it. */
module SettingsFile {
  import opened Bytes
  import opened SerialConfig

  /** The six settings. */
  datatype Field = DataPort | StatusPort | Mode | Command | TimerCount | Hotkey

  function Key(f: Field): seq<byte> {
    match f {
      case DataPort => Ascii("DATA_PORT")
      case StatusPort => Ascii("STATUS_PORT")
      case Mode => Ascii("MODE")
      case Command => Ascii("COMMAND")
      case TimerCount => Ascii("TIMER_COUNT")
      case Hotkey => Ascii("HOTKEY")
    }
  }

  function Number(f: Field, s: Settings): u16 {
    match f {
      case DataPort => s.dataPort
      case StatusPort => s.statusPort
      case Mode => s.mode
      case Command => s.command
      case TimerCount => s.timerCount
      case Hotkey => s.modifierMask
    }
  }

  predicate Space(c: byte) { c == 0x20 || c == 0x09 }

  predicate Spaces(text: seq<byte>) {
    forall k :: 0 <= k < |text| ==> Space(text[k])
  }

  predicate NoSpaceFirst(text: seq<byte>) {
    text == [] || !Space(text[0])
  }

  /** A hexadecimal digit of either case. */
  predicate IsDigit(c: byte, d: nat) {
    && d < 16
    && (if d < 10 then c == 0x30 + d else c == 0x41 + (d - 10) || c == 0x61 + (d - 10))
  }

  predicate SomeDigit(c: byte) {
    0x30 <= c <= 0x39 || 0x41 <= c <= 0x46 || 0x61 <= c <= 0x66
  }

  /** The digits are those of v, the last one being the units. */
  predicate Spells(digits: seq<byte>, v: nat)
    decreases |digits|
  {
    if digits == [] then v == 0
    else IsDigit(digits[|digits| - 1], v % 16) && Spells(digits[..|digits| - 1], v / 16)
  }

  /** 0x or 0X stands there. */
  predicate Prefixed(text: seq<byte>) {
    |text| >= 2 && text[0] == 0x30 && (text[1] == 0x78 || text[1] == 0x58)
  }

  function HotkeyName(mask: byte): seq<byte> {
    if mask == 0x01 then Ascii("SHIFT+SPACE") else if mask == 0x08 then Ascii("GRAPH+SPACE") else Ascii("CTRL+SPACE")
  }

  /** A line in its parts: one that sets nothing, a numeric setting or the choice of the hotkey. */
  datatype Line =
    | Silent(indent: seq<byte>, text: seq<byte>)
    | Numeric(indent: seq<byte>, f: Field, gap: seq<byte>, prefix: seq<byte>, digits: seq<byte>, v: u16,
              tail: seq<byte>)
    | Choice(indent: seq<byte>, gap: seq<byte>, text: seq<byte>)

  /** The line from its first character that is no space. */
  function Content(l: Line): seq<byte> {
    match l {
      case Silent(_, text) => text
      case Numeric(_, f, gap, prefix, digits, _, tail) => Key(f) + [0x3d] + (gap + (prefix + (digits + tail)))
      case Choice(_, gap, text) => Key(Hotkey) + [0x3d] + (gap + text)
    }
  }

  /** An empty line, a remark, a line of more than 127 characters, or one without a key. */
  predicate SetsNothing(text: seq<byte>) {
    || text == [] || text[0] in {0x3b, 0x23, 0x00} || |text| > 127
    || forall f: Field :: !(Key(f) + [0x3d] <= text)
  }

  /** The number is all of its digits, at most four; one without prefix does not begin like a prefix. */
  predicate NumberEnds(prefix: seq<byte>, digits: seq<byte>, tail: seq<byte>) {
    && |digits| <= 4 && (|digits| == 4 || tail == [] || !SomeDigit(tail[0]))
    && (prefix in {[0x30, 0x78], [0x30, 0x58]}
        || (prefix == [] && !Prefixed(digits + tail) && NoSpaceFirst(digits + tail)))
  }

  /** From n on, only spaces up to the end of the line or a zero byte. */
  ghost predicate OnlySpaces(text: seq<byte>, n: nat) {
    exists e :: n <= e <= |text| && Spaces(text[n..e]) && (e == |text| || text[e] == 0)
  }

  /** The name stands there and nothing else. */
  ghost predicate NamesHotkey(text: seq<byte>, mask: byte) {
    HotkeyName(mask) <= text && OnlySpaces(text, |HotkeyName(mask)|)
  }

  ghost predicate Proper(l: Line) {
    && Spaces(l.indent) && NoLineEnd(l.indent + Content(l))
    && match l {
         case Silent(_, text) => NoSpaceFirst(text) && SetsNothing(text)
         case Numeric(_, f, gap, prefix, digits, v, tail) =>
           f != Hotkey && |Content(l)| <= 127 && Spaces(gap) && Spells(digits, v) && NumberEnds(prefix, digits, tail)
         case Choice(_, gap, text) => |Content(l)| <= 127 && Spaces(gap) && NoSpaceFirst(text)
       }
  }

  /** What the line says about a setting; modes and commands are bytes. */
  ghost function Given(l: Line, f: Field): Option<u16> {
    match l {
      case Silent(_, _) => None
      case Numeric(_, g, _, _, digits, v, _) =>
        if g != f || digits == [] then None else Some(if f == Mode || f == Command then v % 0x100 else v)
      case Choice(_, _, text) =>
        if f != Hotkey then None
        else if NamesHotkey(text, 0x01) then Some(0x01)
        else if NamesHotkey(text, 0x08) then Some(0x08)
        else if NamesHotkey(text, 0x10) then Some(0x10)
        else None
    }
  }

  // ----- reading one line -----

  lemma {:induction false} SkipIs(line: seq<byte>, i: nat, j: nat)
    requires i <= j <= |line| && Spaces(line[i..j]) && NoSpaceFirst(line[j..])
    ensures Skip(line, i) == j
    decreases j - i
  {
    if i < j {
      assert line[i..j][0] == line[i] && line[i + 1..j] == line[i..j][1..];
      SkipIs(line, i + 1, j);
    } else {
      assert j < |line| ==> line[j..][0] == line[j];
    }
  }

  lemma DigitIsRead(c: byte, d: nat)
    ensures IsDigit(c, d) ==> HexValue(c) == d && SomeDigit(c)
    ensures (HexValue(c) == 0xff) == !SomeDigit(c)
  {
  }

  /** v below the power of 16 that the digits can reach. */
  lemma {:induction false} SpellsBound(digits: seq<byte>, v: nat)
    requires Spells(digits, v) && |digits| <= 4
    ensures v < [1, 16, 256, 4096, 65536][|digits|]
    decreases |digits|
  {
    if digits == [] {
    } else {
      SpellsBound(digits[..|digits| - 1], v / 16);
    }
  }

  lemma ReadsDigit(line: seq<byte>, p: nat, v: nat, n: nat, d: nat)
    requires n < 4 && v < 0x1000 && IsDigit(At(line, p), d)
    ensures v * 16 + d < 0x1_0000 && HexDigits(line, p, v, n) == HexDigits(line, p + 1, v * 16 + d, n + 1)
  {
    DigitIsRead(At(line, p), d);
  }

  lemma {:induction false} ReadsDigits(line: seq<byte>, i: nat, digits: seq<byte>, v: nat)
    requires i + |digits| <= |line| && line[i..i + |digits|] == digits && |digits| <= 4 && Spells(digits, v)
    ensures v < 0x1_0000 && HexDigits(line, i, 0, 0) == HexDigits(line, i + |digits|, v, |digits|)
    decreases |digits|
  {
    SpellsBound(digits, v);
    if digits == [] {
    } else {
      var n := |digits| - 1;
      var rest, w, c := digits[..n], v / 16, digits[n];
      SpellsBound(rest, w);
      assert line[i..i + n] == rest;
      ReadsDigits(line, i, rest, w);
      assert line[i + n] == line[i..i + |digits|][n] == c;
      ReadsDigit(line, i + n, w, n, v % 16);
    }
  }

  lemma DigitsEnd(line: seq<byte>, p: nat, v: u16, n: nat)
    requires n <= 4 && (n == 4 || HexValue(At(line, p)) == 0xff)
    ensures HexDigits(line, p, v, n) == (v, n)
  {
  }

  lemma ReadsNumber(line: seq<byte>, i: nat, j: nat, p: nat, digits: seq<byte>, v: u16)
    requires i <= j <= p && p + |digits| <= |line| && Skip(line, i) == j
    requires p == (if HexPrefix(line, j) then j + 2 else j)
    requires line[p..p + |digits|] == digits && |digits| <= 4 && Spells(digits, v)
    requires |digits| == 4 || HexValue(At(line, p + |digits|)) == 0xff
    ensures ParseHex(line, i) == if digits == [] then None else Some(v)
  {
    var n := |digits|;
    ReadsDigits(line, p, digits, v);
    DigitsEnd(line, p + n, v, n);
    NumberIs(line, i, j, p, v, n);
  }

  lemma NumberIs(line: seq<byte>, i: nat, j: nat, p: nat, v: u16, n: nat)
    requires i <= |line| && Skip(line, i) == j && p == (if HexPrefix(line, j) then j + 2 else j)
    requires HexDigits(line, p, 0, 0) == (v, n)
    ensures ParseHex(line, i) == if n == 0 then None else Some(v)
  {
  }

  lemma Parts(a: seq<byte>, b: seq<byte>)
    ensures (a + b)[..|a|] == a && (a + b)[|a|..] == b
  {
  }

  lemma Inside(line: seq<byte>, i: nat, a: seq<byte>, b: seq<byte>)
    requires i <= |line| && line[i..] == a + b
    ensures i + |a| <= |line| && line[i..i + |a|] == a && line[i + |a|..] == b
  {
    Parts(a, b);
    assert line[i..i + |a|] == line[i..][..|a|];
    assert line[i + |a|..] == line[i..][|a|..];
  }

  lemma PrefixAt(line: seq<byte>, j: nat)
    requires j <= |line|
    ensures HexPrefix(line, j) == Prefixed(line[j..])
  {
  }

  lemma NumberStarts(line: seq<byte>, j: nat, prefix: seq<byte>, rest: seq<byte>)
    requires j <= |line| && line[j..] == prefix + rest
    requires prefix in {[0x30, 0x78], [0x30, 0x58]} || (prefix == [] && !Prefixed(rest) && NoSpaceFirst(rest))
    ensures HexPrefix(line, j) == (prefix != []) && NoSpaceFirst(line[j..])
  {
    PrefixAt(line, j);
    assert prefix == [] ==> prefix + rest == rest;
  }

  lemma NumberAt(line: seq<byte>, i: nat, gap: seq<byte>, prefix: seq<byte>, digits: seq<byte>, v: u16,
                 tail: seq<byte>)
    requires i <= |line| && line[i..] == gap + (prefix + (digits + tail))
    requires Spaces(gap) && Spells(digits, v) && NumberEnds(prefix, digits, tail)
    ensures ParseHex(line, i) == if digits == [] then None else Some(v)
  {
    var j := i + |gap|;
    var p, e := j + |prefix|, j + |prefix| + |digits|;
    Inside(line, i, gap, prefix + (digits + tail));
    Inside(line, j, prefix, digits + tail);
    Inside(line, p, digits, tail);
    NumberStarts(line, j, prefix, digits + tail);
    SkipIs(line, i, j);
    assert tail != [] ==> line[e..][0] == line[e];
    DigitIsRead(At(line, e), 0);
    ReadsNumber(line, i, j, p, digits, v);
  }

  lemma HasKey(line: seq<byte>, key: seq<byte>)
    ensures KeyAt(line, 0, key) == (key + [0x3d] <= line)
  {
    var n := |key|;
    if n < |line| {
      assert line[..n + 1] == line[..n] + [line[n]];
    }
  }

  function Letter(f: Field): byte {
    match f {
      case DataPort => 0x44
      case StatusPort => 0x53
      case Mode => 0x4d
      case Command => 0x43
      case TimerCount => 0x54
      case Hotkey => 0x48
    }
  }

  lemma StartsWithLetter(f: Field)
    ensures Key(f) != [] && Key(f)[0] == Letter(f)
  {
  }

  lemma StartsLine(line: seq<byte>, f: Field)
    ensures Key(f) + [0x3d] <= line ==> line != [] && line[0] == Letter(f)
  {
    StartsWithLetter(f);
    if Key(f) + [0x3d] <= line {
      assert (Key(f) + [0x3d])[0] == line[0];
    }
  }

  lemma OtherKey(line: seq<byte>, f: Field, g: Field)
    requires Key(f) + [0x3d] <= line && f != g
    ensures !KeyAt(line, 0, Key(g))
  {
    HasKey(line, Key(g));
    StartsLine(line, f);
    StartsLine(line, g);
  }

  /** Which of the keys stand at the start of a line. */
  ghost predicate OnlyKey(line: seq<byte>, f: Field) {
    forall g: Field :: KeyAt(line, 0, Key(g)) == (g == f)
  }

  lemma KeyIsOnly(line: seq<byte>, f: Field)
    requires Key(f) + [0x3d] <= line
    ensures OnlyKey(line, f) && line != [] && Skip(line, 0) == 0 && !Remark(line[0]) && line[0] != 0
  {
    HasKey(line, Key(f));
    StartsLine(line, f);
    forall g: Field | g != f
      ensures !KeyAt(line, 0, Key(g))
    {
      OtherKey(line, f, g);
    }
  }

  /** The numbers that the parser finds for the five numeric keys. */
  ghost predicate Finds(line: seq<byte>, f: Field, v: Option<u16>) {
    && NumberFor(line, 0, DATA_PORT) == (if f == DataPort then v else None)
    && NumberFor(line, 0, STATUS_PORT) == (if f == StatusPort then v else None)
    && NumberFor(line, 0, MODE) == (if f == Mode then v else None)
    && NumberFor(line, 0, COMMAND) == (if f == Command then v else None)
    && NumberFor(line, 0, TIMER_COUNT) == (if f == TimerCount then v else None)
    && KeyAt(line, 0, HOTKEY) == (f == Hotkey)
  }

  lemma FindsNumber(line: seq<byte>, f: Field, v: Option<u16>)
    requires OnlyKey(line, f) && (f == Hotkey || ParseHex(line, |Key(f)| + 1) == v)
    ensures Finds(line, f, v)
  {
    assert KeyAt(line, 0, Key(DataPort)) == (f == DataPort);
    assert KeyAt(line, 0, Key(StatusPort)) == (f == StatusPort);
    assert KeyAt(line, 0, Key(Mode)) == (f == Mode);
    assert KeyAt(line, 0, Key(Command)) == (f == Command);
    assert KeyAt(line, 0, Key(TimerCount)) == (f == TimerCount);
    assert KeyAt(line, 0, Key(Hotkey)) == (f == Hotkey);
  }

  /** The setting f becomes v, if there is one; the others stay. */
  ghost predicate Sets(s: Settings, t: Settings, f: Field, v: Option<u16>) {
    forall g: Field :: Number(g, t) == if g == f && v.Some? then v.value else Number(g, s)
  }

  /** Modes and commands keep the low byte of their number. */
  function Kept(f: Field, v: Option<u16>): Option<u16> {
    if v.Some? && (f == Mode || f == Command) then Some(v.value % 0x100) else v
  }

  lemma SetsNumber(s: Settings, line: seq<byte>, f: Field, v: Option<u16>)
    requires line != [] && Skip(line, 0) == 0 && !Remark(line[0]) && line[0] != 0
    requires Finds(line, f, v) && f != Hotkey
    ensures Sets(s, ParseLine(s, line), f, Kept(f, v))
  {
  }

  lemma NumericParsed(s: Settings, line: seq<byte>, f: Field, v: Option<u16>)
    requires f != Hotkey && Key(f) + [0x3d] <= line && ParseHex(line, |Key(f)| + 1) == v
    ensures Sets(s, ParseLine(s, line), f, Kept(f, v))
  {
    KeyIsOnly(line, f);
    FindsNumber(line, f, v);
    SetsNumber(s, line, f, v);
  }

  lemma NumericLine(s: Settings, l: Line, key: seq<byte>, line: seq<byte>)
    requires Proper(l) && l.Numeric? && key == Key(l.f) + [0x3d] && line == Content(l)
    ensures Sets(s, ParseLine(s, line), l.f, Given(l, l.f))
  {
    Parts(key, l.gap + (l.prefix + (l.digits + l.tail)));
    NumberAt(line, |key|, l.gap, l.prefix, l.digits, l.v, l.tail);
    NumericParsed(s, line, l.f, if l.digits == [] then None else Some(l.v));
  }

  lemma OnlySpacesIff(text: seq<byte>, n: nat)
    requires n <= |text|
    ensures (At(text, Skip(text, n)) == 0) == OnlySpaces(text, n)
  {
    var q := Skip(text, n);
    if At(text, q) == 0 {
      assert Spaces(text[n..q]);
    }
    if OnlySpaces(text, n) {
      var e :| n <= e <= |text| && Spaces(text[n..e]) && (e == |text| || text[e] == 0);
      assert e < |text| ==> text[e..][0] == text[e];
      SkipIs(text, n, e);
    }
  }

  lemma NameStands(line: seq<byte>, j: nat, mask: byte, name: seq<byte>)
    requires j <= |line| && name == HotkeyName(mask)
    ensures ValueAt(line, j, name) == NamesHotkey(line[j..], mask)
  {
    var text, n := line[j..], |name|;
    if j + n <= |line| {
      assert line[j..j + n] == text[..n];
      OnlySpacesIff(text, n);
      SkipShifted(line, j, n);
    }
  }

  lemma ThreeNames()
    ensures HotkeyName(0x01) == SHIFT_SPACE && HotkeyName(0x08) == GRAPH_SPACE && HotkeyName(0x10) == CTRL_SPACE
  {
  }

  lemma ChoosesHotkey(s: Settings, line: seq<byte>, i: nat, l: Line)
    requires l.Choice? && i <= |line| && line[i..] == l.gap + l.text && Spaces(l.gap) && NoSpaceFirst(l.text)
    ensures Sets(s, ParseHotkey(s, line, i), Hotkey, Given(l, Hotkey))
  {
    var j := i + |l.gap|;
    Inside(line, i, l.gap, l.text);
    SkipIs(line, i, j);
    ThreeNames();
    NameStands(line, j, 0x01, SHIFT_SPACE);
    NameStands(line, j, 0x08, GRAPH_SPACE);
    NameStands(line, j, 0x10, CTRL_SPACE);
    Chosen(s, line, i, j, l);
  }

  lemma Chosen(s: Settings, line: seq<byte>, i: nat, j: nat, l: Line)
    requires l.Choice? && i <= |line| && Skip(line, i) == j
    requires ValueAt(line, j, SHIFT_SPACE) == NamesHotkey(l.text, 0x01)
    requires ValueAt(line, j, GRAPH_SPACE) == NamesHotkey(l.text, 0x08)
    requires ValueAt(line, j, CTRL_SPACE) == NamesHotkey(l.text, 0x10)
    ensures Sets(s, ParseHotkey(s, line, i), Hotkey, Given(l, Hotkey))
  {
  }

  lemma NoPort(s: Settings, line: seq<byte>)
    requires line != [] && Skip(line, 0) == 0 && !Remark(line[0]) && line[0] != 0
    requires NumberFor(line, 0, DATA_PORT).None? && NumberFor(line, 0, STATUS_PORT).None?
    ensures ParseLine(s, line) == ParseModes(s, line, 0)
  {
  }

  lemma NoMode(s: Settings, line: seq<byte>)
    requires NumberFor(line, 0, MODE).None? && NumberFor(line, 0, COMMAND).None?
    requires NumberFor(line, 0, TIMER_COUNT).None? && KeyAt(line, 0, HOTKEY)
    ensures |HOTKEY| + 1 <= |line| && ParseModes(s, line, 0) == ParseHotkey(s, line, |HOTKEY| + 1)
  {
  }

  lemma ChoiceParsed(s: Settings, line: seq<byte>, key: seq<byte>)
    requires key == Key(Hotkey) && key + [0x3d] <= line
    ensures |key| + 1 <= |line| && ParseLine(s, line) == ParseHotkey(s, line, |key| + 1)
  {
    KeyIsOnly(line, Hotkey);
    FindsNumber(line, Hotkey, None);
    NoPort(s, line);
    NoMode(s, line);
  }

  lemma ChoiceSets(s: Settings, l: Line, key: seq<byte>, line: seq<byte>)
    requires l.Choice? && Spaces(l.gap) && NoSpaceFirst(l.text) && line == key + [0x3d] + (l.gap + l.text)
    requires |key| + 1 <= |line| && ParseLine(s, line) == ParseHotkey(s, line, |key| + 1)
    ensures Sets(s, ParseLine(s, line), Hotkey, Given(l, Hotkey))
  {
    Parts(key + [0x3d], l.gap + l.text);
    ChoosesHotkey(s, line, |key| + 1, l);
  }

  lemma ChoiceLine(s: Settings, l: Line)
    requires Proper(l) && l.Choice?
    ensures Sets(s, ParseLine(s, Content(l)), Hotkey, Given(l, Hotkey))
  {
    ChoiceParsed(s, Content(l), Key(Hotkey));
    ChoiceSets(s, l, Key(Hotkey), Content(l));
  }

  lemma SilentLine(s: Settings, text: seq<byte>)
    requires text != [] && text[0] != 0 && NoSpaceFirst(text) && forall f: Field :: !(Key(f) + [0x3d] <= text)
    ensures ParseLine(s, text) == s
  {
    HasKey(text, Key(DataPort));
    HasKey(text, Key(StatusPort));
    HasKey(text, Key(Mode));
    HasKey(text, Key(Command));
    HasKey(text, Key(TimerCount));
    HasKey(text, Key(Hotkey));
    SilentKeys(s, text);
  }

  lemma SilentKeys(s: Settings, line: seq<byte>)
    requires !KeyAt(line, 0, DATA_PORT) && !KeyAt(line, 0, STATUS_PORT) && !KeyAt(line, 0, MODE)
    requires !KeyAt(line, 0, COMMAND) && !KeyAt(line, 0, TIMER_COUNT) && !KeyAt(line, 0, HOTKEY)
    requires Skip(line, 0) == 0
    ensures ParseLine(s, line) == s
  {
  }

  // ----- a whole file -----

  lemma Indented(indent: seq<byte>, text: seq<byte>)
    requires Spaces(indent) && NoSpaceFirst(text)
    ensures var raw := indent + text; Skip(raw, 0) == |indent| && raw[Skip(raw, 0)..] == text
  {
    Parts(indent, text);
    SkipIs(indent + text, 0, |indent|);
  }

  lemma ContentStarts(l: Line)
    requires Proper(l)
    ensures NoSpaceFirst(Content(l)) && (!l.Silent? ==> Content(l) != [] && !Remark(Content(l)[0]))
  {
    StartsWithLetter(if l.Numeric? then l.f else Hotkey);
  }

  /** Each line sets what it says and nothing else. */
  lemma AppliesLine(s: Settings, l: Line, f: Field)
    requires Proper(l)
    ensures Number(f, ApplyLine(s, l.indent + Content(l)))
            == if Given(l, f).Some? then Given(l, f).value else Number(f, s)
  {
    ContentStarts(l);
    Indented(l.indent, Content(l));
    if l.Numeric? {
      NumericLine(s, l, Key(l.f) + [0x3d], Content(l));
    } else if l.Choice? {
      ChoiceLine(s, l);
    } else if l.text != [] && l.text[0] !in {0x3b, 0x23, 0x00} && |l.text| <= 127 {
      SilentLine(s, l.text);
    }
  }

  function Texts(lines: seq<Line>): (texts: seq<seq<byte>>)
    ensures |texts| == |lines| && forall i :: 0 <= i < |lines| ==> texts[i] == lines[i].indent + Content(lines[i])
  {
    seq(|lines|, i requires 0 <= i < |lines| => lines[i].indent + Content(lines[i]))
  }

  /** k is the last line that gives the setting, or -1. */
  ghost predicate LastToGive(lines: seq<Line>, f: Field, k: int) {
    && -1 <= k < |lines| && (k >= 0 ==> Given(lines[k], f).Some?)
    && forall i :: 0 <= i < |lines| && k < i ==> Given(lines[i], f).None?
  }

  lemma {:induction false} AppliesAll(s: Settings, lines: seq<Line>, f: Field, k: int)
    requires (forall i :: 0 <= i < |lines| ==> Proper(lines[i])) && LastToGive(lines, f, k)
    ensures Number(f, ApplyLines(s, Texts(lines))) == if k < 0 then Number(f, s) else Given(lines[k], f).value
    decreases |lines|
  {
    if lines == [] {
    } else {
      var rest := lines[1..];
      var t := ApplyLine(s, lines[0].indent + Content(lines[0]));
      assert Texts(lines)[1..] == Texts(rest);
      AppliesLine(s, lines[0], f);
      AppliesAll(t, rest, f, if k < 0 then -1 else k - 1);
    }
  }

  /** Each setting is what the last line that gives it says, and stays as it was if none does. */
  lemma LastLineDecides(from: Settings, lines: seq<Line>, ends: seq<seq<byte>>, f: Field, k: int)
    requires |lines| == |ends| && ProperEnds(ends) && forall i :: 0 <= i < |lines| ==> Proper(lines[i])
    requires LastToGive(lines, f, k)
    ensures Number(f, Load(from, Text(Texts(lines), ends)))
            == if k < 0 then Number(f, from) else Given(lines[k], f).value
  {
    LoadAppliesLines(from, Texts(lines), ends);
    AppliesAll(from, lines, f, k);
  }

  /** The digits at the start of a text, at most n. */
  lemma {:induction false} SplitsDigits(text: seq<byte>, n: nat) returns (digits: seq<byte>, v: nat)
    requires n <= 4
    ensures digits <= text && |digits| <= n && Spells(digits, v)
    ensures |digits| == n || |digits| == |text| || !SomeDigit(text[|digits|])
  {
    if n == 0 {
      digits, v := [], 0;
    } else {
      digits, v := SplitsDigits(text, n - 1);
      var m := |digits|;
      if m == n - 1 && m < |text| && SomeDigit(text[m]) {
        var c := text[m];
        var d := HexValue(c);
        assert IsDigit(c, d);
        ghost var more := digits + [c];
        assert more[..m] == digits && (v * 16 + d) / 16 == v && (v * 16 + d) % 16 == d;
        digits, v := more, v * 16 + d;
      }
    }
  }

  lemma SplitsSpaces(text: seq<byte>) returns (gap: seq<byte>, rest: seq<byte>)
    ensures text == gap + rest && Spaces(gap) && NoSpaceFirst(rest)
  {
    var j := Skip(text, 0);
    gap, rest := text[..j], text[j..];
  }

  lemma SplitsNumber(text: seq<byte>)
      returns (prefix: seq<byte>, digits: seq<byte>, v: u16, tail: seq<byte>)
    requires NoSpaceFirst(text)
    ensures text == prefix + (digits + tail) && Spells(digits, v) && NumberEnds(prefix, digits, tail)
  {
    var p := if Prefixed(text) then 2 else 0;
    prefix := text[..p];
    assert if p == 2 then prefix == [0x30, text[1]] else prefix == [];
    var rest, n := text[p..], 4;
    var w;
    digits, w := SplitsDigits(rest, n);
    SpellsBound(digits, w);
    v, tail := w, rest[|digits|..];
    assert digits + tail == rest && prefix + rest == text;
    assert tail != [] ==> tail[0] == rest[|digits|];
    assert p == 0 ==> rest == text;
  }

  /** Every line has such parts. */
  lemma EveryLineHasParts(raw: seq<byte>) returns (l: Line)
    requires NoLineEnd(raw)
    ensures Proper(l) && l.indent + Content(l) == raw
  {
    var indent, text := SplitsSpaces(raw);
    if SetsNothing(text) {
      return Silent(indent, text);
    }
    var f: Field :| Key(f) + [0x3d] <= text;
    var n := |Key(f)| + 1;
    var gap, value := SplitsSpaces(text[n..]);
    assert text == Key(f) + [0x3d] + (gap + value);
    if f == Hotkey {
      l := Choice(indent, gap, value);
    } else {
      var prefix, digits, v, tail := SplitsNumber(value);
      l := Numeric(indent, f, gap, prefix, digits, v, tail);
    }
  }

  /** So every file is a list of such lines. */
  lemma {:induction false} EveryLineIsProper(texts: seq<seq<byte>>) returns (lines: seq<Line>)
    requires forall i :: 0 <= i < |texts| ==> NoLineEnd(texts[i])
    ensures Texts(lines) == texts && forall i :: 0 <= i < |lines| ==> Proper(lines[i])
    decreases |texts|
  {
    if texts == [] {
      lines := [];
    } else {
      var n := |texts| - 1;
      var l := EveryLineHasParts(texts[n]);
      var rest := EveryLineIsProper(texts[..n]);
      lines := rest + [l];
      assert Texts(lines) == Texts(rest) + [texts[n]];
    }
  }

  lemma {:induction false} LastOne(lines: seq<Line>, f: Field) returns (k: int)
    ensures LastToGive(lines, f, k)
    decreases |lines|
  {
    var n := |lines|;
    if n == 0 {
      k := -1;
    } else if Given(lines[n - 1], f).Some? {
      k := n - 1;
    } else {
      k := LastOne(lines[..n - 1], f);
    }
  }

  /** For every file and every setting: some reading of its bytes as such lines says what is loaded. */
  lemma EveryFileIsUnderstood(from: Settings, data: seq<byte>, f: Field)
      returns (lines: seq<Line>, ends: seq<seq<byte>>, k: int)
    ensures |lines| == |ends| && ProperEnds(ends) && Text(Texts(lines), ends) == data
    ensures (forall i :: 0 <= i < |lines| ==> Proper(lines[i])) && LastToGive(lines, f, k)
    ensures Number(f, Load(from, data)) == if k < 0 then Number(f, from) else Given(lines[k], f).value
  {
    var texts;
    texts, ends := EveryFileIsLines(data);
    lines := EveryLineIsProper(texts);
    k := LastOne(lines, f);
    LastLineDecides(from, lines, ends, f, k);
  }

  // ----- the documented form -----

  function Digit(d: nat): byte
    requires d < 16
  {
    if d < 10 then 0x30 + d else 0x41 + d - 10
  }

  function Hex2(v: byte): seq<byte> {
    [Digit(v / 16), Digit(v % 16)]
  }

  function Hex4(v: u16): seq<byte> {
    [Digit(v / 4096), Digit(v / 256 % 16), Digit(v / 16 % 16), Digit(v % 16)]
  }

  /** The setting as samples/IME98.CFG writes it. */
  function Documented(f: Field, s: Settings): Line {
    match f {
      case Mode => Numeric([], f, [], [], Hex2(s.mode), s.mode, [])
      case Command => Numeric([], f, [], [], Hex2(s.command), s.command, [])
      case Hotkey => Choice([], [], HotkeyName(s.modifierMask))
      case _ => Numeric([], f, [], [], Hex4(Number(f, s)), Number(f, s), [])
    }
  }

  const FIELDS := [DataPort, StatusPort, Mode, Command, TimerCount, Hotkey]

  function Written(s: Settings): (lines: seq<Line>) {
    seq(6, i requires 0 <= i < 6 => Documented(FIELDS[i], s))
  }

  lemma Hex2Spells(v: byte)
    ensures Spells(Hex2(v), v) && !Prefixed(Hex2(v) + []) && NumberEnds([], Hex2(v), []) && NoLineEnd(Hex2(v))
  {
    var h := Hex2(v);
    assert h[..1] == [Digit(v / 16)] && h[..1][..0] == [] && h + [] == h;
  }

  lemma OneMore(digits: seq<byte>, v: nat, d: nat)
    requires Spells(digits, v / 16) && v % 16 == d
    ensures Spells(digits + [Digit(d)], v)
  {
    assert (digits + [Digit(d)])[..|digits|] == digits;
  }

  lemma Hex4Spells(v: u16)
    ensures Spells(Hex4(v), v) && !Prefixed(Hex4(v) + []) && NumberEnds([], Hex4(v), []) && NoLineEnd(Hex4(v))
  {
    var h, a, b, c := Hex4(v), v / 4096, v / 256, v / 16;
    assert b / 16 == a && c / 16 == b && h + [] == h && [] + [h[0]] == [h[0]];
    assert [h[0]] + [h[1]] == [h[0], h[1]] && [h[0], h[1]] + [h[2]] == [h[0], h[1], h[2]];
    assert [h[0], h[1], h[2]] + [h[3]] == h;
    OneMore([], a, a);
    OneMore([h[0]], b, b % 16);
    OneMore([h[0], h[1]], c, c % 16);
    OneMore([h[0], h[1], h[2]], v, v % 16);
  }

  lemma PlainLine(key: seq<byte>, value: seq<byte>)
    requires 0 < |key| < 20 && |value| < 20 && NoLineEnd(key) && NoLineEnd(value)
    ensures |key + ([0x3d] + value)| < 40 && NoLineEnd(key + ([0x3d] + value))
  {
  }

  lemma NumberIsProper(f: Field, digits: seq<byte>, v: u16)
    requires f != Hotkey && 2 <= |digits| <= 4 && Spells(digits, v) && NumberEnds([], digits, []) && NoLineEnd(digits)
    ensures Proper(Numeric([], f, [], [], digits, v, []))
  {
    var l := Numeric([], f, [], [], digits, v, []);
    KeyIsPlain(f);
    PlainLine(Key(f), digits);
    assert [] + ([] + (digits + [])) == digits && Content(l) == Key(f) + ([0x3d] + digits);
    assert l.indent + Content(l) == Content(l);
  }

  lemma KeyIsPlain(f: Field)
    ensures 0 < |Key(f)| < 20 && NoLineEnd(Key(f))
  {
  }

  lemma NameIsPlain(mask: byte, name: seq<byte>)
    requires mask in {0x01, 0x08, 0x10} && name == HotkeyName(mask)
    ensures name != [] && name[0] == (if mask == 0x01 then 0x53 else if mask == 0x08 then 0x47 else 0x43)
    ensures |name| < 20 && NoLineEnd(name) && NamesHotkey(name, mask)
  {
    assert Spaces(name[|name|..|name|]);
  }

  lemma NameIsGiven(mask: byte, name: seq<byte>, l: Line)
    requires mask in {0x01, 0x08, 0x10} && name == HotkeyName(mask) && l == Choice([], [], name)
    ensures Given(l, Hotkey) == Some(mask)
  {
    NameIsPlain(mask, name);
    NamedOnce(name, 0x01);
    NamedOnce(name, 0x08);
    NamedOnce(name, 0x10);
  }

  lemma NameIsProper(mask: byte, name: seq<byte>, l: Line)
    requires mask in {0x01, 0x08, 0x10} && name == HotkeyName(mask) && l == Choice([], [], name)
    ensures Proper(l)
  {
    NameIsPlain(mask, name);
    KeyIsPlain(Hotkey);
    PlainLine(Key(Hotkey), name);
    assert Content(l) == Key(Hotkey) + ([0x3d] + name) && l.indent + Content(l) == Content(l);
  }

  lemma NamedOnce(text: seq<byte>, mask: byte)
    requires mask in {0x01, 0x08, 0x10}
    ensures NamesHotkey(text, mask) ==>
              text != [] && text[0] == (if mask == 0x01 then 0x53 else if mask == 0x08 then 0x47 else 0x43)
  {
    if NamesHotkey(text, mask) {
      assert HotkeyName(mask)[0] == text[0];
    }
  }

  lemma DocumentedIsProper(f: Field, s: Settings)
    requires s.modifierMask in {0x01, 0x08, 0x10}
    ensures Proper(Documented(f, s))
  {
    var v := Number(f, s);
    if f == Hotkey {
      NameIsProper(v, HotkeyName(v), Documented(f, s));
    } else if f == Mode || f == Command {
      Hex2Spells(v);
      NumberIsProper(f, Hex2(v), v);
    } else {
      Hex4Spells(v);
      NumberIsProper(f, Hex4(v), v);
    }
  }

  lemma DocumentedGives(f: Field, s: Settings, g: Field)
    requires s.modifierMask in {0x01, 0x08, 0x10}
    ensures Given(Documented(f, s), g) == if f == g then Some(Number(f, s)) else None
  {
    if f == Hotkey {
      NameIsGiven(s.modifierMask, HotkeyName(s.modifierMask), Documented(f, s));
    }
  }

  lemma SameNumbers(s: Settings, t: Settings)
    requires forall f: Field :: Number(f, s) == Number(f, t)
    ensures s == t
  {
    assert Number(DataPort, s) == Number(DataPort, t) && Number(StatusPort, s) == Number(StatusPort, t);
    assert Number(Mode, s) == Number(Mode, t) && Number(Command, s) == Number(Command, t);
    assert Number(TimerCount, s) == Number(TimerCount, t) && Number(Hotkey, s) == Number(Hotkey, t);
  }

  lemma WrittenGives(s: Settings, lines: seq<Line>, i: nat, g: Field)
    requires s.modifierMask in {0x01, 0x08, 0x10} && lines == Written(s) && i < 6
    ensures Proper(lines[i]) && Given(lines[i], g) == if i == Place(g) then Some(Number(g, s)) else None
  {
    DocumentedIsProper(FIELDS[i], s);
    DocumentedGives(FIELDS[i], s, g);
  }

  lemma WrittenLast(s: Settings, lines: seq<Line>, f: Field, k: nat)
    requires s.modifierMask in {0x01, 0x08, 0x10} && lines == Written(s) && k == Place(f)
    ensures (forall i :: 0 <= i < |lines| ==> Proper(lines[i])) && LastToGive(lines, f, k)
    ensures Given(lines[k], f) == Some(Number(f, s))
  {
    forall i | 0 <= i < 6
      ensures Proper(lines[i]) && Given(lines[i], f) == if i == k then Some(Number(f, s)) else None
    {
      WrittenGives(s, lines, i, f);
    }
  }

  lemma WrittenNumber(from: Settings, s: Settings, lines: seq<Line>, ends: seq<seq<byte>>, f: Field)
    requires s.modifierMask in {0x01, 0x08, 0x10} && lines == Written(s) && |lines| == |ends| == 6 && ProperEnds(ends)
    ensures Number(f, Load(from, Text(Texts(lines), ends))) == Number(f, s)
  {
    var k := Place(f);
    WrittenLast(s, lines, f, k);
    LastLineDecides(from, lines, ends, f, k);
  }

  /** Settings written in the documented form are loaded back, whatever was set before and however the lines end. */
  lemma WrittenSettingsLoad(from: Settings, s: Settings, ends: seq<seq<byte>>)
    requires s.modifierMask in {0x01, 0x08, 0x10} && |ends| == 6 && ProperEnds(ends)
    ensures Load(from, Text(Texts(Written(s)), ends)) == s
  {
    forall f: Field
      ensures Number(f, Load(from, Text(Texts(Written(s)), ends))) == Number(f, s)
    {
      WrittenNumber(from, s, Written(s), ends, f);
    }
    SameNumbers(Load(from, Text(Texts(Written(s)), ends)), s);
  }

  function Place(f: Field): (k: nat)
    ensures k < 6 && forall i :: 0 <= i < 6 ==> (FIELDS[i] == f) == (i == k)
  {
    match f {
      case DataPort => 0
      case StatusPort => 1
      case Mode => 2
      case Command => 3
      case TimerCount => 4
      case Hotkey => 5
    }
  }

  predicate AsciiText(text: string) {
    forall i :: 0 <= i < |text| ==> 0 < text[i] as int < 0x80
  }

  function Setting(key: string, value: string): seq<byte>
    requires AsciiText(key) && AsciiText(value)
  {
    Ascii(key) + [0x3d] + Ascii(value)
  }

  /** The settings lines of samples/IME98.CFG. */
  function SampleLine(f: Field): seq<byte> {
    match f {
      case DataPort => Setting("DATA_PORT", "0030")
      case StatusPort => Setting("STATUS_PORT", "0032")
      case Mode => Setting("MODE", "02")
      case Command => Setting("COMMAND", "27")
      case TimerCount => Setting("TIMER_COUNT", "0008")
      case Hotkey => Setting("HOTKEY", "SHIFT+SPACE")
    }
  }

  lemma SampleValues()
    ensures Hex4(0x30) == Ascii("0030") && Hex4(0x32) == Ascii("0032") && Hex2(0x02) == Ascii("02")
    ensures Hex2(0x27) == Ascii("27") && Hex4(0x08) == Ascii("0008")
  {
  }

  lemma SampleIsDocumented(f: Field, s: Settings)
    requires s == Settings(0x30, 0x32, 0x02, 0x27, 0x08, 0x01)
    ensures [] + Content(Documented(f, s)) == SampleLine(f)
  {
    SampleValues();
  }

  lemma SampleIsWritten(s: Settings, f: Field, i: nat)
    requires s == Settings(0x30, 0x32, 0x02, 0x27, 0x08, 0x01) && i < 6 && f == FIELDS[i]
    ensures Texts(Written(s))[i] == SampleLine(f)
  {
    SampleIsDocumented(f, s);
  }

  /** The six of them, in the sample's order, give the defaults. */
  lemma SampleFile(from: Settings, texts: seq<seq<byte>>, ends: seq<seq<byte>>)
    requires |texts| == |ends| == 6 && ProperEnds(ends)
    requires forall i :: 0 <= i < 6 ==> texts[i] == SampleLine(FIELDS[i])
    ensures Load(from, Text(texts, ends)) == DEFAULTS == Settings(0x30, 0x32, 0x02, 0x27, 0x08, 0x01)
  {
    var s := DEFAULTS;
    forall i | 0 <= i < 6
      ensures texts[i] == Texts(Written(s))[i]
    {
      SampleIsWritten(s, FIELDS[i], i);
    }
    assert texts == Texts(Written(s));
    WrittenSettingsLoad(from, s, ends);
  }
}
