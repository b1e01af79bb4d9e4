/** dos/pc98/serial_pc98.c: the settings file, read in chunks and assembled into lines of at most 127 characters. */
module SerialConfig {
  import opened Bytes

  const EQUALS: byte := 0x3d
  const LINE_SIZE := 128
  const READ_SIZE := 64

  datatype Settings = Settings(dataPort: u16, statusPort: u16, mode: byte, command: byte, timerCount: u16,
                               modifierMask: byte)

  const DEFAULTS := Settings(0x30, 0x32, 0x02, 0x27, 0x08, 0x01)

  /** The bytes of an ASCII literal. */
  function Ascii(s: string): (bytes: seq<byte>)
    requires forall i :: 0 <= i < |s| ==> 0 < s[i] as int < 0x80
    ensures |bytes| == |s| && forall i :: 0 <= i < |s| ==> bytes[i] == s[i] as int
  {
    seq(|s|, i requires 0 <= i < |s| => s[i] as int)
  }

  const DATA_PORT := Ascii("DATA_PORT")
  const STATUS_PORT := Ascii("STATUS_PORT")
  const MODE := Ascii("MODE")
  const COMMAND := Ascii("COMMAND")
  const TIMER_COUNT := Ascii("TIMER_COUNT")
  const HOTKEY := Ascii("HOTKEY")
  const SHIFT_SPACE := Ascii("SHIFT+SPACE")
  const GRAPH_SPACE := Ascii("GRAPH+SPACE")
  const CTRL_SPACE := Ascii("CTRL+SPACE")

  // ----- one line -----

  /** A character of a line; the terminator follows the last one. */
  function At(line: seq<byte>, i: nat): byte {
    if i < |line| then line[i] else 0
  }

  predicate Blank(c: byte) { c == 0x20 || c == 0x09 }

  predicate Remark(c: byte) { c == 0x3b || c == 0x23 }

  /** The first position from i on that holds no blank. */
  function Skip(line: seq<byte>, i: nat): (j: nat)
    requires i <= |line|
    ensures i <= j <= |line| && !Blank(At(line, j)) && forall k :: i <= k < j ==> Blank(line[k])
    decreases |line| - i
  {
    if i < |line| && Blank(line[i]) then Skip(line, i + 1) else i
  }

  function HexValue(c: byte): byte {
    if 0x30 <= c <= 0x39 then c - 0x30
    else if 0x41 <= c <= 0x46 then c - 0x41 + 10
    else if 0x61 <= c <= 0x66 then c - 0x61 + 10
    else 0xff
  }

  /** At most four digits; the value so far and the number of digits. */
  function HexDigits(line: seq<byte>, i: nat, result: u16, count: nat): (u16, nat)
    decreases 4 - count
  {
    var digit := HexValue(At(line, i));
    if digit != 0xff && count < 4 then HexDigits(line, i + 1, (result * 16 + digit) % 0x1_0000, count + 1)
    else (result, count)
  }

  predicate HexPrefix(line: seq<byte>, i: nat) {
    At(line, i) == 0x30 && (At(line, i + 1) == 0x78 || At(line, i + 1) == 0x58)
  }

  function ParseHex(line: seq<byte>, i: nat): Option<u16>
    requires i <= |line|
  {
    var j := Skip(line, i);
    var (value, count) := HexDigits(line, if HexPrefix(line, j) then j + 2 else j, 0, 0);
    if count == 0 then None else Some(value)
  }

  /** The key and an equals sign stand at i. */
  predicate KeyAt(line: seq<byte>, i: nat, key: seq<byte>) {
    i + |key| < |line| && line[i..i + |key|] == key && line[i + |key|] == EQUALS
  }

  /** The value stands at i, followed by blanks up to the end. */
  predicate ValueAt(line: seq<byte>, i: nat, value: seq<byte>) {
    i + |value| <= |line| && line[i..i + |value|] == value && At(line, Skip(line, i + |value|)) == 0
  }

  function ParseHotkey(s: Settings, line: seq<byte>, i: nat): Settings
    requires i <= |line|
  {
    var j := Skip(line, i);
    if ValueAt(line, j, SHIFT_SPACE) then s.(modifierMask := 0x01)
    else if ValueAt(line, j, GRAPH_SPACE) then s.(modifierMask := 0x08)
    else if ValueAt(line, j, CTRL_SPACE) then s.(modifierMask := 0x10)
    else s
  }

  /** A numeric setting: the key is there and a number follows. */
  function NumberFor(line: seq<byte>, i: nat, key: seq<byte>): Option<u16> {
    if KeyAt(line, i, key) then ParseHex(line, i + |key| + 1) else None
  }

  function ParsePorts(s: Settings, line: seq<byte>, i: nat): Settings {
    if NumberFor(line, i, DATA_PORT).Some? then s.(dataPort := NumberFor(line, i, DATA_PORT).value)
    else if NumberFor(line, i, STATUS_PORT).Some? then s.(statusPort := NumberFor(line, i, STATUS_PORT).value)
    else s
  }

  function ParseModes(s: Settings, line: seq<byte>, i: nat): Settings {
    if NumberFor(line, i, MODE).Some? then s.(mode := Lo(NumberFor(line, i, MODE).value))
    else if NumberFor(line, i, COMMAND).Some? then s.(command := Lo(NumberFor(line, i, COMMAND).value))
    else if NumberFor(line, i, TIMER_COUNT).Some? then s.(timerCount := NumberFor(line, i, TIMER_COUNT).value)
    else if KeyAt(line, i, HOTKEY) then ParseHotkey(s, line, i + |HOTKEY| + 1)
    else s
  }

  /** One setting, told by its key; a key whose number is missing sets nothing. */
  function ParseLine(s: Settings, line: seq<byte>): Settings {
    var i := Skip(line, 0);
    if At(line, i) == 0 || Remark(At(line, i)) then s
    else if NumberFor(line, i, DATA_PORT).Some? || NumberFor(line, i, STATUS_PORT).Some? then ParsePorts(s, line, i)
    else ParseModes(s, line, i)
  }

  // ----- the line assembler -----

  /** What the reader remembers between bytes. */
  datatype Reader = Reader(settings: Settings, line: seq<byte>, overflow: bool, started: bool, comment: bool)

  function Fresh(s: Settings): Reader {
    Reader(s, [], false, false, false)
  }

  predicate LineEnd(c: byte) { c == CR || c == LF }

  function Feed(r: Reader, c: byte): Reader {
    if LineEnd(c) then Fresh(if !r.overflow && !r.comment then ParseLine(r.settings, r.line) else r.settings)
    else if r.overflow || r.comment then r
    else if !r.started && Blank(c) then r
    else if !r.started && Remark(c) then r.(started := true, comment := true)
    else if |r.line| + 1 < LINE_SIZE then r.(started := true, line := r.line + [c])
    else r.(started := true, overflow := true)
  }

  function FeedAll(r: Reader, data: seq<byte>): Reader
    decreases |data|
  {
    if data == [] then r else FeedAll(Feed(r, data[0]), data[1..])
  }

  /** The last line may lack its end. */
  function Finish(r: Reader): Settings {
    if |r.line| != 0 && !r.overflow && !r.comment then ParseLine(r.settings, r.line) else r.settings
  }

  function Load(s: Settings, data: seq<byte>): Settings {
    Finish(FeedAll(Fresh(s), data))
  }

  // ----- the file as a list of lines -----

  /** A whole line of the file: leading blanks go, remarks and lines of more than 127 characters are ignored. */
  function ApplyLine(s: Settings, raw: seq<byte>): Settings {
    var line := raw[Skip(raw, 0)..];
    if line == [] || Remark(line[0]) || |line| >= LINE_SIZE then s else ParseLine(s, line)
  }

  function ApplyLines(s: Settings, lines: seq<seq<byte>>): Settings
    decreases |lines|
  {
    if lines == [] then s else ApplyLines(ApplyLine(s, lines[0]), lines[1..])
  }

  predicate NoLineEnd(line: seq<byte>) {
    forall i :: 0 <= i < |line| ==> !LineEnd(line[i])
  }

  /** The file with its lines ended as given. */
  function Text(lines: seq<seq<byte>>, ends: seq<seq<byte>>): seq<byte>
    requires |lines| == |ends|
  {
    if lines == [] then [] else lines[0] + ends[0] + Text(lines[1..], ends[1..])
  }

  /** CR, LF or CR LF; the last line may have none. */
  predicate ProperEnds(ends: seq<seq<byte>>) {
    forall i :: 0 <= i < |ends| ==> ends[i] in {[0x0d], [0x0a], [0x0d, 0x0a]} || (i == |ends| - 1 && ends[i] == [])
  }

  lemma {:induction false} FeedAllConcat(r: Reader, a: seq<byte>, b: seq<byte>)
    ensures FeedAll(r, a + b) == FeedAll(FeedAll(r, a), b)
    decreases |a|
  {
    if a == [] {
      assert a + b == b;
    } else {
      assert (a + b)[1..] == a[1..] + b;
      FeedAllConcat(Feed(r, a[0]), a[1..], b);
    }
  }

  /** The assembler on a line whose leading blanks are gone. */
  lemma {:induction false} AssemblesRest(r: Reader, rest: seq<byte>)
    requires NoLineEnd(rest) && r.started && !r.overflow && !r.comment && |r.line| < LINE_SIZE
    ensures var t := FeedAll(r, rest);
      && t.settings == r.settings && !t.comment
      && t.overflow == (|r.line| + |rest| >= LINE_SIZE)
      && (!t.overflow ==> t.line == r.line + rest)
    decreases |rest|
  {
    if rest == [] {
    } else {
      var next := Feed(r, rest[0]);
      if next.overflow {
        StaysIgnored(next, rest[1..]);
      } else {
        AssemblesRest(next, rest[1..]);
        assert r.line + rest == (r.line + [rest[0]]) + rest[1..];
      }
    }
  }

  lemma {:induction false} StaysIgnored(r: Reader, rest: seq<byte>)
    requires NoLineEnd(rest) && (r.overflow || r.comment)
    ensures FeedAll(r, rest) == r
    decreases |rest|
  {
    if rest == [] {
    } else {
      StaysIgnored(r, rest[1..]);
    }
  }

  /** What the assembler holds after a raw line. */
  lemma {:induction false} AssemblesLine(s: Settings, raw: seq<byte>)
    requires NoLineEnd(raw)
    ensures var r, line := FeedAll(Fresh(s), raw), raw[Skip(raw, 0)..];
      && r.settings == s
      && (if line == [] then r == Fresh(s)
          else if Remark(line[0]) then r.comment
          else if |line| >= LINE_SIZE then r.overflow
          else !r.overflow && !r.comment && r.line == line)
    decreases |raw|
  {
    if raw == [] {
    } else {
      if Blank(raw[0]) {
        AssemblesLine(s, raw[1..]);
        SkipTail(raw, 1);
        assert raw[1..][Skip(raw[1..], 0)..] == raw[Skip(raw, 0)..];
      } else if Remark(raw[0]) {
        StaysIgnored(Feed(Fresh(s), raw[0]), raw[1..]);
      } else {
        AssemblesRest(Feed(Fresh(s), raw[0]), raw[1..]);
        assert [raw[0]] + raw[1..] == raw;
      }
    }
  }

  lemma {:induction false} SkipTail(line: seq<byte>, i: nat)
    requires i <= |line|
    ensures Skip(line[i..], 0) + i == Skip(line, i)
    decreases |line| - i
  {
    SkipShifted(line, i, 0);
  }

  lemma {:induction false} SkipShifted(line: seq<byte>, i: nat, k: nat)
    requires i + k <= |line|
    ensures Skip(line[i..], k) + i == Skip(line, i + k)
    decreases |line| - i - k
  {
    if i + k < |line| && Blank(line[i + k]) {
      SkipShifted(line, i, k + 1);
    }
  }

  lemma LineThenEnd(s: Settings, raw: seq<byte>, end: seq<byte>)
    requires NoLineEnd(raw) && end in {[CR], [LF], [CR, LF]}
    ensures FeedAll(Fresh(s), raw + end) == Fresh(ApplyLine(s, raw))
  {
    AssemblesLine(s, raw);
    FeedAllConcat(Fresh(s), raw, end);
    var r := FeedAll(Fresh(s), raw);
    var t := Feed(r, end[0]);
    assert t == Fresh(ApplyLine(s, raw)) == Feed(t, LF);
    assert FeedAll(r, end) == FeedAll(t, end[1..]);
    assert end[1..] == [] || (end[1..] == [LF] && FeedAll(t, [LF]) == FeedAll(Feed(t, LF), [LF][1..]));
  }

  lemma LastLine(s: Settings, raw: seq<byte>)
    requires NoLineEnd(raw)
    ensures Load(s, raw) == ApplyLine(s, raw)
  {
    AssemblesLine(s, raw);
  }

  /** Loading is applying the lines in order, however each of them ends; a missing last line end does not matter. */
  lemma {:induction false} LoadAppliesLines(s: Settings, lines: seq<seq<byte>>, ends: seq<seq<byte>>)
    requires |lines| == |ends| && ProperEnds(ends) && forall i :: 0 <= i < |lines| ==> NoLineEnd(lines[i])
    ensures Load(s, Text(lines, ends)) == ApplyLines(s, lines)
    decreases |lines|
  {
    if lines == [] {
    } else {
      var rest := Text(lines[1..], ends[1..]);
      if ends[0] == [] {
        assert lines[1..] == [] && lines[0] + ends[0] + rest == lines[0];
        LastLine(s, lines[0]);
      } else {
        LineThenEnd(s, lines[0], ends[0]);
        FeedAllConcat(Fresh(s), lines[0] + ends[0], rest);
        LoadAppliesLines(ApplyLine(s, lines[0]), lines[1..], ends[1..]);
      }
    }
  }

  /** Every file is such a list of lines. */
  lemma {:induction false} EveryFileIsLines(data: seq<byte>) returns (lines: seq<seq<byte>>, ends: seq<seq<byte>>)
    ensures |lines| == |ends| && ProperEnds(ends) && Text(lines, ends) == data
    ensures forall i :: 0 <= i < |lines| ==> NoLineEnd(lines[i])
    decreases |data|
  {
    if data == [] {
      lines, ends := [], [];
    } else {
      var c := data[0];
      var lines', ends' := EveryFileIsLines(data[1..]);
      if LineEnd(c) {
        lines, ends := [[]] + lines', [[c]] + ends';
        assert lines[1..] == lines' && ends[1..] == ends';
        assert [] + [c] + data[1..] == data;
      } else if lines' == [] {
        lines, ends := [[c]], [[]];
        assert data[1..] == [] && Text(lines[1..], ends[1..]) == [];
        assert [c] + [] + [] == data;
      } else {
        lines, ends := [[c] + lines'[0]] + lines'[1..], ends';
        assert lines[1..] == lines'[1..];
        assert ([c] + lines'[0]) + ends'[0] + Text(lines'[1..], ends'[1..]) == [c] + Text(lines', ends');
      }
    }
  }

  // ----- the reader itself -----

  /** What successive reads return up to the first that returns nothing. */
  function ReadAll(answers: seq<seq<byte>>): seq<byte> {
    if answers == [] || answers[0] == [] then [] else answers[0] + ReadAll(answers[1..])
  }

  method SkipBlanks(line: array<byte>, i: nat, ghost n: nat) returns (j: nat)
    requires i <= n < line.Length && line[n] == 0
    ensures j == Skip(line[..n], i)
  {
    j := i;
    while line[j] == 0x20 || line[j] == 0x09
      invariant i <= j <= n && Skip(line[..n], j) == Skip(line[..n], i)
      decreases n - j
    {
      j := j + 1;
    }
  }

  method ReadHex(line: array<byte>, i: nat, ghost n: nat) returns (value: Option<u16>)
    requires i <= n < line.Length && line[n] == 0
    ensures value == ParseHex(line[..n], i)
  {
    var j := SkipBlanks(line, i, n);
    if line[j] == 0x30 && (line[j + 1] == 0x78 || line[j + 1] == 0x58) {
      j := j + 2;
    }
    ghost var first := j;
    var result: u16, count: nat := 0, 0;
    var digit := HexValue(line[j]);
    while digit != 0xff && count < 4
      invariant j <= n && digit == HexValue(line[j])
      invariant HexDigits(line[..n], j, result, count) == HexDigits(line[..n], first, 0, 0)
      decreases 4 - count
    {
      result := (result * 16 + digit) % 0x1_0000;
      j := j + 1;
      count := count + 1;
      digit := HexValue(line[j]);
    }
    value := if count == 0 then None else Some(result);
  }

  method ConfigKey(line: array<byte>, i: nat, ghost n: nat, key: seq<byte>) returns (found: bool)
    requires i <= n < line.Length && line[n] == 0 && forall k :: 0 <= k < |key| ==> key[k] != 0
    ensures found == KeyAt(line[..n], i, key)
  {
    ghost var text := line[..n];
    var k := 0;
    while k < |key| && line[i + k] == key[k]
      invariant k <= |key| && i + k <= n && text[i..i + k] == key[..k]
    {
      assert text[i..i + k + 1] == text[i..i + k] + [text[i + k]];
      k := k + 1;
    }
    assert k == |key| ==> key[..k] == key;
    found := k == |key| && line[i + k] == EQUALS;
    if k < |key| && i + |key| <= n {
      assert text[i..i + |key|][k] == line[i + k] != key[k];
    }
  }

  method ConfigValue(line: array<byte>, i: nat, ghost n: nat, value: seq<byte>) returns (found: bool)
    requires i <= n < line.Length && line[n] == 0 && forall k :: 0 <= k < |value| ==> value[k] != 0
    ensures found == ValueAt(line[..n], i, value)
  {
    ghost var text := line[..n];
    var k := 0;
    while k < |value| && line[i + k] == value[k]
      invariant k <= |value| && i + k <= n && text[i..i + k] == value[..k]
    {
      assert text[i..i + k + 1] == text[i..i + k] + [text[i + k]];
      k := k + 1;
    }
    assert k == |value| ==> value[..k] == value;
    var j := SkipBlanks(line, i + k, n);
    found := k == |value| && line[j] == 0;
    if k < |value| && i + |value| <= n {
      assert text[i..i + |value|][k] == line[i + k] != value[k];
    }
  }

  class SerialSettings {
    var dataPort: u16
    var statusPort: u16
    var mode: byte
    var command: byte
    var timerCount: u16
    var modifierMask: byte

    ghost function State(): Settings
      reads this
    {
      Settings(dataPort, statusPort, mode, command, timerCount, modifierMask)
    }

    constructor ()
      ensures State() == DEFAULTS
    {
      dataPort, statusPort, mode, command, timerCount, modifierMask := 0x30, 0x32, 0x02, 0x27, 0x08, 0x01;
    }

    /** A number for the key, if both are there. */
    method ReadNumber(line: array<byte>, i: nat, ghost n: nat, key: seq<byte>) returns (value: Option<u16>)
      requires i <= n < line.Length && line[n] == 0 && forall k :: 0 <= k < |key| ==> key[k] != 0
      ensures value == NumberFor(line[..n], i, key)
    {
      var found := ConfigKey(line, i, n, key);
      if !found {
        return None;
      }
      value := ReadHex(line, i + |key| + 1, n);
    }

    method ParseHotkeyValue(line: array<byte>, i: nat, ghost n: nat)
      requires i <= n < line.Length && line[n] == 0
      modifies this
      ensures State() == ParseHotkey(old(State()), line[..n], i)
    {
      var j := SkipBlanks(line, i, n);
      var shift := ConfigValue(line, j, n, SHIFT_SPACE);
      if shift {
        modifierMask := 0x01;
        return;
      }
      var graph := ConfigValue(line, j, n, GRAPH_SPACE);
      if graph {
        modifierMask := 0x08;
        return;
      }
      var ctrl := ConfigValue(line, j, n, CTRL_SPACE);
      if ctrl {
        modifierMask := 0x10;
      }
    }

    /** The ports: whether one of them was set. */
    method ParsePort(line: array<byte>, i: nat, ghost n: nat) returns (done: bool)
      requires i <= n < line.Length && line[n] == 0
      modifies this
      ensures done == (NumberFor(line[..n], i, DATA_PORT).Some? || NumberFor(line[..n], i, STATUS_PORT).Some?)
      ensures State() == ParsePorts(old(State()), line[..n], i)
    {
      var value := ReadNumber(line, i, n, DATA_PORT);
      if value.Some? {
        dataPort := value.value;
        return true;
      }
      value := ReadNumber(line, i, n, STATUS_PORT);
      if value.Some? {
        statusPort := value.value;
        return true;
      }
      done := false;
    }

    method ParseMode(line: array<byte>, i: nat, ghost n: nat)
      requires i <= n < line.Length && line[n] == 0
      modifies this
      ensures State() == ParseModes(old(State()), line[..n], i)
    {
      var value := ReadNumber(line, i, n, MODE);
      if value.Some? {
        mode := Lo(value.value);
        return;
      }
      value := ReadNumber(line, i, n, COMMAND);
      if value.Some? {
        command := Lo(value.value);
        return;
      }
      value := ReadNumber(line, i, n, TIMER_COUNT);
      if value.Some? {
        timerCount := value.value;
        return;
      }
      var hotkey := ConfigKey(line, i, n, HOTKEY);
      if hotkey {
        ParseHotkeyValue(line, i + |HOTKEY| + 1, n);
      }
    }

    method ParseConfigLine(line: array<byte>, ghost n: nat)
      requires n < line.Length && line[n] == 0
      modifies this
      ensures State() == ParseLine(old(State()), line[..n])
    {
      var i := SkipBlanks(line, 0, n);
      if line[i] == 0 || line[i] == 0x3b || line[i] == 0x23 {
        return;
      }
      var done := ParsePort(line, i, n);
      if !done {
        ParseMode(line, i, n);
      }
    }

    /** The inner loop of pc98_serial_load_config: one read's bytes. */
    method ReadChunk(line: array<byte>, buffer: seq<byte>,
                     lineLength: nat, overflow: bool, started: bool, comment: bool)
        returns (lineLength': nat, overflow': bool, started': bool, comment': bool)
      requires line.Length == LINE_SIZE && lineLength < LINE_SIZE
      modifies this, line
      ensures lineLength' < LINE_SIZE
      ensures Reader(State(), line[..lineLength'], overflow', started', comment')
              == FeedAll(old(Reader(State(), line[..lineLength], overflow, started, comment)), buffer)
    {
      lineLength', overflow', started', comment' := lineLength, overflow, started, comment;
      ghost var whole := FeedAll(Reader(State(), line[..lineLength], overflow, started, comment), buffer);
      var position := 0;
      while position < |buffer|
        invariant position <= |buffer| && lineLength' < LINE_SIZE
        invariant FeedAll(Reader(State(), line[..lineLength'], overflow', started', comment'), buffer[position..])
                  == whole
      {
        var value := buffer[position];
        ghost var r := Reader(State(), line[..lineLength'], overflow', started', comment');
        position := position + 1;
        assert FeedAll(r, buffer[position - 1..]) == FeedAll(Feed(r, value), buffer[position..]);
        if value == CR || value == LF {
          if !overflow' && !comment' {
            line[lineLength'] := 0;
            ParseConfigLine(line, lineLength');
          }
          lineLength', overflow', started', comment' := 0, false, false, false;
        } else if !overflow' && !comment' {
          if !started' {
            if value == 0x20 || value == 0x09 {
              continue;
            }
            started' := true;
            if value == 0x3b || value == 0x23 {
              comment' := true;
              continue;
            }
          }
          if lineLength' + 1 < line.Length {
            line[lineLength'] := value;
            lineLength' := lineLength' + 1;
          } else {
            overflow' := true;
          }
        }
        assert Reader(State(), line[..lineLength'], overflow', started', comment') == Feed(r, value);
      }
    }

    /** pc98_serial_load_config: `answers` are what the successive reads of the file return. */
    method LoadConfig(available: bool, answers: seq<seq<byte>>) returns (loaded: bool)
      requires forall i :: 0 <= i < |answers| ==> |answers[i]| <= READ_SIZE
      modifies this
      ensures loaded == available
      ensures State() == if available then Load(old(State()), ReadAll(answers)) else old(State())
    {
      if !available {
        return false;
      }
      ghost var whole := FeedAll(Fresh(State()), ReadAll(answers));
      var line := new byte[LINE_SIZE];
      var lineLength: nat := 0;
      var overflow, started, comment := false, false, false;
      var k := 0;
      while k < |answers| && |answers[k]| != 0
        invariant k <= |answers| && lineLength < LINE_SIZE
        invariant FeedAll(Reader(State(), line[..lineLength], overflow, started, comment), ReadAll(answers[k..]))
                  == whole
      {
        assert answers[k..][1..] == answers[k + 1..];
        FeedAllConcat(Reader(State(), line[..lineLength], overflow, started, comment), answers[k],
                      ReadAll(answers[k + 1..]));
        lineLength, overflow, started, comment := ReadChunk(line, answers[k], lineLength, overflow, started, comment);
        k := k + 1;
      }
      if lineLength != 0 && !overflow && !comment {
        line[lineLength] := 0;
        ParseConfigLine(line, lineLength);
      }
      loaded := true;
    }
  }

  /** However a file is cut into non-empty reads before the empty one, the settings loaded are those of its bytes. */
  lemma {:induction false} ChunksDoNotMatter(s: Settings, chunks: seq<seq<byte>>, more: seq<seq<byte>>)
    requires forall i :: 0 <= i < |chunks| ==> chunks[i] != []
    ensures ReadAll(chunks + ([[]] + more)) == Concat(chunks)
    ensures Load(s, ReadAll(chunks + ([[]] + more))) == Load(s, Concat(chunks))
  {
    var answers := chunks + ([[]] + more);
    if chunks == [] {
      assert answers[0] == [];
    } else {
      assert answers[1..] == chunks[1..] + ([[]] + more);
      ChunksDoNotMatter(s, chunks[1..], more);
    }
  }
}
