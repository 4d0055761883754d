/**
 * The HID keyboard report codec: one 8-byte boot-keyboard report
 * (byte 0 = modifier, byte 2 = keycode) is turned into a string token.
 * The key tables follow chapter 10 (Keyboard/Keypad page) of the
 * USB HID Usage Tables 1.12.
 */
module HidCodec {
  import opened Common

  const BufferLength: nat := 8

  /** Keycode -> text without Shift, indexed by the HID usage id 0..56. */
  const Keys: seq<string> :=
    ["", "", "", "", "a", "b", "c", "d", "e", "f"] +
    ["g", "h", "i", "j", "k", "l", "m", "n", "o", "p"] +
    ["q", "r", "s", "t", "u", "v", "w", "x", "y", "z"] +
    ["1", "2", "3", "4", "5", "6", "7", "8", "9", "0"] +
    ["ENTER", "ESCAPE", "DELETE", "TAB", " ", "-", "=", "[", "]", "\\"] +
    ["", ";", "'", "~", ",", ".", "/"]

  /** Keycode -> text with Shift held. */
  const UpperKeys: seq<string> :=
    [" ", " ", " ", " ", "A", "B", "C", "D", "E", "F"] +
    ["G", "H", "I", "J", "K", "L", "M", "N", "O", "P"] +
    ["Q", "R", "S", "T", "U", "V", "W", "X", "Y", "Z"] +
    ["!", "@", "#", "$", "%", "^", "&", "*", "(", ")"] +
    ["ENTER", "ESCAPE", "DELETE", "TAB", " ", "_", "+", "{", "}", "|"] +
    ["", ":", "\"", "~", "<", ">", "?"]

  const TerminatorStr: string := "ENTER"
  const ShiftKeyStr: string := "SHIFT"

  /** The report of the Enter key alone, and of the left Shift modifier alone. */
  const Terminator: seq<uint8> := [0, 0, 40, 0, 0, 0, 0, 0]
  const ShiftKey: seq<uint8> := [2, 0, 0, 0, 0, 0, 0, 0]

  /** The modifier value of the left Shift key. */
  const ShiftModifier: uint8 := 2

  datatype ParseError =
    | ErrorBufferLength
    | UnexpectedKey(key: int)

  /** The `(string, error)` pair of ParseBuffer. */
  datatype Parsed = Token(text: string) | Failure(error: ParseError) {
    /** The string half of the pair: `ParseBuffer` returns "" with every error. */
    function Text(): string
    {
      if Token? then text else ""
    }
  }

  /** Byte-wise comparison of `s1` against the start of `s2` (`sameSlice` assumes equal lengths). */
  function SameSlice(s1: seq<uint8>, s2: seq<uint8>): (same: bool)
    requires |s1| <= |s2|
    ensures same <==> s1 == s2[..|s1|]
  {
    forall i :: 0 <= i < |s1| ==> s1[i] == s2[i]
  }

  function IsTerminator(buf: seq<uint8>): (r: bool)
    requires |buf| <= BufferLength
    ensures r <==> buf == Terminator[..|buf|]
  {
    SameSlice(buf, Terminator)
  }

  function IsShift(buf: seq<uint8>): (r: bool)
    requires |buf| <= BufferLength
    ensures r <==> buf == ShiftKey[..|buf|]
  {
    SameSlice(buf, ShiftKey)
  }

  /** Decodes one keyboard report. */
  function ParseBuffer(buf: seq<uint8>): Parsed
  {
    if |buf| != BufferLength then Failure(ErrorBufferLength)
    else if IsTerminator(buf) then Token(TerminatorStr)
    else if IsShift(buf) then Token(ShiftKeyStr)
    else
      var isShift := buf[0] == ShiftModifier;
      var key := buf[2];
      if key > |Keys| - 1 then Failure(UnexpectedKey(key))
      else if isShift then Token(UpperKeys[key])
      else Token(Keys[key])
  }

  // ---------------------------------------------------------------------
  // Properties of the codec

  /** Both tables have 57 entries, so a keycode that passes the bound on Keys also indexes UpperKeys. */
  lemma TablesAligned()
    ensures |Keys| == |UpperKeys| == 57
  {
  }

  /** Any buffer that is not 8 bytes long is refused, with "" as its text. */
  lemma RejectsWrongLength(buf: seq<uint8>)
    requires |buf| != BufferLength
    ensures ParseBuffer(buf) == Failure(ErrorBufferLength)
    ensures ParseBuffer(buf).Text() == ""
  {
  }

  /** The two fixed patterns decode to the control tokens; the terminator test comes first. */
  lemma PatternsDecode(buf: seq<uint8>)
    requires |buf| == BufferLength
    ensures buf == Terminator ==> ParseBuffer(buf) == Token(TerminatorStr)
    ensures buf == ShiftKey ==> ParseBuffer(buf) == Token(ShiftKeyStr)
    ensures IsTerminator(buf) ==> !IsShift(buf)
  {
  }

  /** Any other report selects the table by the modifier byte and indexes it by the keycode. */
  lemma TableLookup(buf: seq<uint8>)
    requires |buf| == BufferLength && buf != Terminator && buf != ShiftKey
    requires buf[2] < |Keys|
    ensures buf[0] == ShiftModifier ==> ParseBuffer(buf) == Token(UpperKeys[buf[2]])
    ensures buf[0] != ShiftModifier ==> ParseBuffer(buf) == Token(Keys[buf[2]])
  {
  }

  /** A report decodes without error exactly when it is 8 bytes long and its keycode is at most 56. */
  lemma SucceedsIff(buf: seq<uint8>)
    ensures ParseBuffer(buf).Token? <==> |buf| == BufferLength && buf[2] < |Keys|
    ensures |buf| == BufferLength && buf[2] >= |Keys| ==> ParseBuffer(buf) == Failure(UnexpectedKey(buf[2]))
  {
    if |buf| == BufferLength && IsTerminator(buf) {
      assert buf[2] == Terminator[2];
    } else if |buf| == BufferLength && IsShift(buf) {
      assert buf[2] == ShiftKey[2];
    }
  }

  /** "ENTER" stands only at index 40 of Keys. */
  lemma KeysEnterAt40(k: nat)
    requires k < |Keys|
    ensures Keys[k] == TerminatorStr <==> k == 40
  {
  }

  /** "ENTER" stands only at index 40 of UpperKeys. */
  lemma UpperKeysEnterAt40(k: nat)
    requires k < |UpperKeys|
    ensures UpperKeys[k] == TerminatorStr <==> k == 40
  {
  }

  /** "ENTER" stands only at index 40, in both tables. */
  lemma EnterOnlyAt40(k: nat)
    requires k < |Keys|
    ensures Keys[k] == TerminatorStr <==> k == 40
    ensures UpperKeys[k] == TerminatorStr <==> k == 40
  {
    KeysEnterAt40(k);
    UpperKeysEnterAt40(k);
  }

  /** "SHIFT" is not in Keys. */
  lemma KeysLackShift(k: nat)
    requires k < |Keys|
    ensures Keys[k] != ShiftKeyStr
  {
  }

  /** "SHIFT" is not in UpperKeys. */
  lemma UpperKeysLackShift(k: nat)
    requires k < |UpperKeys|
    ensures UpperKeys[k] != ShiftKeyStr
  {
  }

  /** "SHIFT" is in neither table. */
  lemma ShiftInNoTable(k: nat)
    requires k < |Keys|
    ensures Keys[k] != ShiftKeyStr && UpperKeys[k] != ShiftKeyStr
  {
    KeysLackShift(k);
    UpperKeysLackShift(k);
  }

  /**
   * A report decodes to "ENTER" exactly when it is 8 bytes long and carries
   * keycode 40, whatever its modifier and reserved bytes hold.
   */
  lemma EnterIffKeycode40(buf: seq<uint8>)
    ensures ParseBuffer(buf) == Token(TerminatorStr) <==> |buf| == BufferLength && buf[2] == 40
  {
    if |buf| == BufferLength && !IsTerminator(buf) && !IsShift(buf) && buf[2] < |Keys| {
      EnterOnlyAt40(buf[2]);
    } else if |buf| == BufferLength && IsTerminator(buf) {
      assert buf[2] == Terminator[2];
    } else if |buf| == BufferLength && IsShift(buf) {
      assert buf[2] == ShiftKey[2];
    }
  }

  /** A report decodes to "SHIFT" exactly when it is the Shift pattern. */
  lemma ShiftIffPattern(buf: seq<uint8>)
    ensures ParseBuffer(buf) == Token(ShiftKeyStr) <==> buf == ShiftKey
  {
    if |buf| == BufferLength && !IsTerminator(buf) && !IsShift(buf) && buf[2] < |Keys| {
      ShiftInNoTable(buf[2]);
    }
  }

  /** Worked reports: "1", "!" and, in the code, the all-zero report is Keys[0] = "", not the terminator. */
  lemma Examples()
    ensures ParseBuffer([0, 0, 30, 0, 0, 0, 0, 0]) == Token("1")
    ensures ParseBuffer([2, 0, 30, 0, 0, 0, 0, 0]) == Token("!")
    ensures ParseBuffer([0, 0, 0, 0, 0, 0, 0, 0]) == Token("")
    ensures ParseBuffer([]) == Failure(ErrorBufferLength)
    ensures ParseBuffer([1]) == Failure(ErrorBufferLength)
    ensures ParseBuffer([0, 0, 57, 0, 0, 0, 0, 0]) == Failure(UnexpectedKey(57))
  {
    var one: seq<uint8>, bang: seq<uint8>, zero: seq<uint8> := [0, 0, 30, 0, 0, 0, 0, 0], [2, 0, 30, 0, 0, 0, 0, 0], [0, 0, 0, 0, 0, 0, 0, 0];
    assert one[2] != Terminator[2] && one[0] != ShiftKey[0];
    TableLookup(one);
    assert bang[2] != Terminator[2] && bang[2] != ShiftKey[2];
    TableLookup(bang);
    assert zero[2] != Terminator[2] && zero[0] != ShiftKey[0];
    TableLookup(zero);
    SucceedsIff([0, 0, 57, 0, 0, 0, 0, 0]);
  }

  // ---------------------------------------------------------------------
  // The inverse: how a keyboard-emulating scanner types one character

  /** The report with the given modifier and keycode and every reserved byte zero. */
  function KeyReport(modifier: uint8, keycode: uint8): (r: seq<uint8>)
    ensures |r| == BufferLength && r[0] == modifier && r[2] == keycode
  {
    [modifier, 0, keycode, 0, 0, 0, 0, 0]
  }

  /** The first index of `t` in `table` at or after `from`. */
  function IndexFrom(table: seq<string>, t: string, from: nat): (r: Option<nat>)
    requires from <= |table|
    decreases |table| - from
    ensures r.Some? ==> from <= r.value < |table| && table[r.value] == t
    ensures r.Some? ==> forall k :: from <= k < r.value ==> table[k] != t
    ensures r.None? <==> forall k :: from <= k < |table| ==> table[k] != t
  {
    if from == |table| then None
    else if table[from] == t then Some(from)
    else IndexFrom(table, t, from + 1)
  }

  /**
   * The report a scanner sends for character `c`: its unshifted key if
   * there is one, otherwise its shifted key; None for a character neither
   * table holds.
   */
  function KeyStroke(c: char): Option<seq<uint8>>
  {
    match IndexFrom(Keys, [c], 0)
    case Some(k) => Some(KeyReport(0, k))
    case None =>
      match IndexFrom(UpperKeys, [c], 0)
      case Some(k) => Some(KeyReport(ShiftModifier, k))
      case None => None
  }

  /** `c` can be typed on the keyboard the tables describe. */
  predicate Typeable(c: char)
  {
    [c] in Keys || [c] in UpperKeys
  }

  /** Every typeable character has a key stroke, and that stroke decodes back to the character. */
  lemma {:induction false} KeyStrokeRoundTrip(c: char)
    ensures KeyStroke(c).Some? <==> Typeable(c)
    ensures KeyStroke(c).Some? ==> ParseBuffer(KeyStroke(c).value) == Token([c])
  {
    var t: string := [c];
    match IndexFrom(Keys, t, 0)
    case Some(k) =>
      var r := KeyReport(0, k);
      assert Keys[k] == t;
      assert k != 40 by { EnterOnlyAt40(k); }
      assert r != Terminator by { assert r[2] != Terminator[2]; }
      assert r != ShiftKey by { assert r[0] != ShiftKey[0]; }
    case None =>
      match IndexFrom(UpperKeys, t, 0)
      case Some(k) =>
        var r := KeyReport(ShiftModifier, k);
        assert UpperKeys[k] == t;
        // UpperKeys[0] is " ", which Keys also holds (at 44); so k is not 0 and r is not the Shift pattern.
        assert Keys[44] == UpperKeys[0];
        assert r != Terminator by { assert r[0] != Terminator[0]; }
        assert r != ShiftKey by { assert r[2] != ShiftKey[2]; }
      case None =>
  }

  /** The unshifted and shifted reports of the same keycode read the two tables at the same index. */
  lemma ShiftSelectsTable(k: uint8)
    requires k < |Keys|
    ensures k != 40 ==> ParseBuffer(KeyReport(0, k)) == Token(Keys[k])
    ensures k != 0 ==> ParseBuffer(KeyReport(ShiftModifier, k)) == Token(UpperKeys[k])
    ensures ParseBuffer(KeyReport(0, 40)) == Token(Keys[40])
    ensures ParseBuffer(KeyReport(ShiftModifier, 0)) == Token(ShiftKeyStr)
  {
    assert KeyReport(0, k) != ShiftKey by { assert KeyReport(0, k)[0] != ShiftKey[0]; }
    assert KeyReport(ShiftModifier, k) != Terminator by { assert KeyReport(ShiftModifier, k)[0] != Terminator[0]; }
    if k != 40 {
      assert KeyReport(0, k) != Terminator by { assert KeyReport(0, k)[2] != Terminator[2]; }
    }
    if k != 0 {
      assert KeyReport(ShiftModifier, k) != ShiftKey by { assert KeyReport(ShiftModifier, k)[2] != ShiftKey[2]; }
    }
  }
}
