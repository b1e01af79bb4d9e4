/** dos/pc98/inject_bios_pc98.c: the key words that stand for a text. */
module KeyEncoding {
  import opened Bytes

  const ENTER: u16 := 0x1c0d

  /** The word the hotkey's Space leaves in the queue, with or without the modifier. */
  const HOTKEY_SPACE: u16 := 0x3420

  /** The word of the key that starts at `input`, and the position of its last byte. */
  function EncodeKey(text: seq<byte>, input: nat): (u16, nat)
    requires input < |text|
  {
    var character: u16 := text[input];
    if character == CR then
      (ENTER, if input + 1 < |text| && text[input + 1] == LF then input + 1 else input)
    else if character == LF then (ENTER, input)
    else if character == 0x08 then (character + 0x0e00, input)
    else if character == 0x09 then (character + 0x0f00, input)
    else (character, input)
  }

  /** All the words of the text from a position on. */
  function EncodeFrom(text: seq<byte>, input: nat): seq<u16>
    decreases |text| - input
  {
    if input >= |text| then []
    else
      var (word, last) := EncodeKey(text, input);
      [word] + EncodeFrom(text, last + 1)
  }

  function EncodeText(text: seq<byte>): seq<u16> {
    EncodeFrom(text, 0)
  }

  method NormalizedLength(text: seq<byte>) returns (output: nat)
    ensures output == |EncodeText(text)|
  {
    output := 0;
    var input := 0;
    while input < |text|
      invariant output + |EncodeFrom(text, input)| == |EncodeText(text)|
    {
      if text[input] == CR && input + 1 < |text| && text[input + 1] == LF {
        input := input + 1;
      }
      input := input + 1;
      output := output + 1;
    }
  }

  // ----- the same words, read off byte by byte -----

  /** The word of a single character. */
  function KeyOf(character: byte): u16 {
    if character == 0x0d || character == 0x0a then 0x1c0d
    else if character == 0x08 then 0x0e08
    else if character == 0x09 then 0x0f09
    else character
  }

  /** A line feed right after a carriage return belongs to the key before it. */
  predicate OwnKey(text: seq<byte>, i: nat)
    requires i < |text|
  {
    !(text[i] == 0x0a && i > 0 && text[i - 1] == 0x0d)
  }

  /** One word per byte, except for the line feed of a CR LF pair. */
  function Keys(text: seq<byte>, i: nat): seq<u16>
    decreases |text| - i
  {
    if i >= |text| then []
    else (if OwnKey(text, i) then [KeyOf(text[i])] else []) + Keys(text, i + 1)
  }

  /** A position that does not fall inside a CR LF pair. */
  predicate KeyBoundary(text: seq<byte>, i: nat) {
    i <= |text| && (i < |text| ==> OwnKey(text, i))
  }

  lemma KeyStaysOnBoundary(text: seq<byte>, i: nat)
    requires i < |text|
    ensures KeyBoundary(text, EncodeKey(text, i).1 + 1)
  {
  }

  lemma {:induction false} EncodesEachKeyOnce(text: seq<byte>, i: nat)
    requires KeyBoundary(text, i)
    ensures EncodeFrom(text, i) == Keys(text, i)
    decreases |text| - i
  {
    if i < |text| {
      var (word, last) := EncodeKey(text, i);
      KeyStaysOnBoundary(text, i);
      EncodesEachKeyOnce(text, last + 1);
      OneKey(text, i);
    }
  }

  lemma SkippedLineFeed(text: seq<byte>, i: nat)
    requires i < |text| && !OwnKey(text, i)
    ensures Keys(text, i) == Keys(text, i + 1)
  {
    assert [] + Keys(text, i + 1) == Keys(text, i + 1);
  }

  lemma OneKey(text: seq<byte>, i: nat)
    requires i < |text| && OwnKey(text, i)
    ensures Keys(text, i) == [EncodeKey(text, i).0] + Keys(text, EncodeKey(text, i).1 + 1)
  {
    assert EncodeKey(text, i).0 == KeyOf(text[i]);
    if EncodeKey(text, i).1 != i {
      SkippedLineFeed(text, i + 1);
    }
  }

  /** Encoding normalises line ends: CR, LF and CR LF each give one Enter, every other byte gives its own word. */
  lemma TextIsNormalised(text: seq<byte>)
    ensures EncodeText(text) == Keys(text, 0)
  {
    EncodesEachKeyOnce(text, 0);
  }

  /** No encoded text contains the hotkey's word. */
  lemma {:induction false} NeverTheHotkey(text: seq<byte>, i: nat)
    ensures 0x3420 !in EncodeFrom(text, i)
    decreases |text| - i
  {
    if i < |text| {
      NeverTheHotkey(text, EncodeKey(text, i).1 + 1);
    }
  }
}
