/**
 * Continuous-stream mode (`CRead`): every report read is decoded; tokens
 * other than "ENTER" and "SHIFT" are accumulated in `out`, and an "ENTER"
 * sends the concatenation of a non-empty `out` to the consumer and empties
 * `out`. The channel is modelled as the sequence `emitted`, and the endless
 * read loop as a loop over a finite trace of reads.
 */
module ContinuousRead {
  import opened Common
  import opened HidCodec
  import opened Transport

  /** The accumulation never holds a control token. */
  predicate Clean(out: seq<string>)
  {
    forall i :: 0 <= i < |out| ==> out[i] != TerminatorStr && out[i] != ShiftKeyStr
  }

  /** The token a decoded report adds to `out` (control tokens add nothing). */
  function Keep(out: seq<string>, d: string): seq<string>
  {
    if d != TerminatorStr && d != ShiftKeyStr then out + [d] else out
  }

  /** The effect of one decoded token: the new `out` and what is sent on the channel (at most one string). */
  function Accumulate(out: seq<string>, d: string): (seq<string>, seq<string>)
  {
    var kept := Keep(out, d);
    if d == TerminatorStr && |kept| > 0 then ([], [Join(kept)]) else (kept, [])
  }

  /** The loop's local state between iterations: the read buffer and the accumulation. */
  datatype Snapshot = Snapshot(data: seq<uint8>, out: seq<string>)

  /** The state before the first read. */
  const Start: Snapshot := Snapshot(Zeros, [])

  /** One iteration of the loop: read, decode, accumulate. */
  function Step(s: Snapshot, t: Transfer): (Snapshot, seq<string>)
    requires |s.data| == BufferLength
  {
    var data := Fill(s.data, t.bytes);
    if t.failed then (Snapshot(data, s.out), [])
    else
      var p := ParseBuffer(data);
      if p.Failure? then (Snapshot(data, s.out), [])
      else
        var a := Accumulate(s.out, p.text);
        (Snapshot(data, a.0), a.1)
  }

  /** The loop over a whole trace: the final state and everything sent, in order. */
  function Run(s: Snapshot, trace: seq<Transfer>): (r: (Snapshot, seq<string>))
    requires |s.data| == BufferLength
    ensures |r.0.data| == BufferLength
    decreases |trace|
  {
    if trace == [] then (s, [])
    else
      var first := Step(s, trace[0]);
      var rest := Run(first.0, trace[1..]);
      (rest.0, first.1 + rest.1)
  }

  /** A run is its first step followed by the run of the rest. */
  lemma RunCons(s: Snapshot, trace: seq<Transfer>)
    requires |s.data| == BufferLength && trace != []
    ensures var first := Step(s, trace[0]);
      Run(s, trace) == (Run(first.0, trace[1..]).0, first.1 + Run(first.0, trace[1..]).1)
  {
  }

  /** The loop state of `CRead`, with the channel replaced by the sequence of sent strings. */
  class Assembler {
    const data: array<uint8>
    var out: seq<string>
    var emitted: seq<string>

    ghost predicate Valid()
      reads this
    {
      data.Length == BufferLength && Clean(out)
    }

    function Current(): Snapshot
      reads this, data
    {
      Snapshot(data[..], out)
    }

    constructor ()
      ensures Valid() && fresh(data)
      ensures Current() == Start && emitted == []
    {
      var buffer := new uint8[BufferLength](_ => 0);
      assert buffer[..] == Zeros;
      data := buffer;
      out := [];
      emitted := [];
    }

    /** One pass of the read loop of `CRead`. */
    method Feed(t: Transfer)
      requires Valid()
      modifies this, data
      ensures Valid()
      ensures Current() == Step(old(Current()), t).0
      ensures emitted == old(emitted) + Step(old(Current()), t).1
    {
      var _, failed := EndpointRead(data, t);
      if failed {
        // the error is logged and the loop continues
        return;
      }
      var parsed := ParseBuffer(data[..]);
      if parsed.Failure? {
        return;
      }
      var d := parsed.text;
      if d != TerminatorStr && d != ShiftKeyStr {
        out := out + [d];
      }
      if d == TerminatorStr && |out| > 0 {
        emitted := emitted + [Join(out)];
        out := [];
      }
    }
  }

  /** `CRead` over a finite trace of reads: returns what it would have sent on the channel. */
  method CRead(trace: seq<Transfer>) returns (emitted: seq<string>)
    ensures emitted == Run(Start, trace).1
  {
    var a := new Assembler();
    for i := 0 to |trace|
      invariant a.Valid() && fresh(a.data)
      invariant Run(Start, trace).1 == a.emitted + Run(a.Current(), trace[i..]).1
    {
      ghost var before, sent := a.Current(), a.emitted;
      RunCons(before, trace[i..]);
      assert trace[i..][0] == trace[i] && trace[i..][1..] == trace[i + 1..];
      a.Feed(trace[i]);
      SeqAssoc(sent, Step(before, trace[i]).1, Run(a.Current(), trace[i + 1..]).1);
    }
    emitted := a.emitted;
  }

  // ---------------------------------------------------------------------
  // Properties of one step

  /**
   * A failed read or an undecodable report leaves `out` alone and sends
   * nothing; "SHIFT" leaves `out` alone; any other non-"ENTER" token is
   * appended; "ENTER" sends the join of a non-empty `out` and empties it,
   * and on an empty `out` does nothing.
   */
  lemma StepCases(s: Snapshot, t: Transfer)
    requires |s.data| == BufferLength
    ensures var data, p := Fill(s.data, t.bytes), ParseBuffer(Fill(s.data, t.bytes));
      && (t.failed ==> Step(s, t) == (Snapshot(data, s.out), []))
      && (!t.failed && p.Failure? ==> Step(s, t) == (Snapshot(data, s.out), []))
      && (!t.failed && p == Token(ShiftKeyStr) ==> Step(s, t) == (Snapshot(data, s.out), []))
      && (!t.failed && p.Token? && p.text != TerminatorStr && p.text != ShiftKeyStr ==>
            Step(s, t) == (Snapshot(data, s.out + [p.text]), []))
      && (!t.failed && p == Token(TerminatorStr) && |s.out| > 0 ==> Step(s, t) == (Snapshot(data, []), [Join(s.out)]))
      && (!t.failed && p == Token(TerminatorStr) && s.out == [] ==> Step(s, t) == (Snapshot(data, []), []))
  {
  }

  /** The emptiness test counts entries, not characters: an `out` of one blank token is flushed as "". */
  lemma BlankTokenIsFlushed(data: seq<uint8>)
    requires |data| == BufferLength
    ensures Run(Snapshot(data, [""]), [Transfer(Terminator, false)]) == (Snapshot(Terminator, []), [""])
  {
    FullReadOverwrites(data, Terminator);
    PatternsDecode(Terminator);
    assert Join([""]) == "";
    var s0, t := Snapshot(data, [""]), [Transfer(Terminator, false)];
    assert Step(s0, t[0]) == (Snapshot(Terminator, []), [""]);
    assert t[1..] == [];
    assert Run(s0, t) == (Run(Snapshot(Terminator, []), []).0, [""] + Run(Snapshot(Terminator, []), []).1);
    assert Run(Snapshot(Terminator, []), []) == (Snapshot(Terminator, []), []);
    assert [""] + [] == [""];
  }

  // ---------------------------------------------------------------------
  // Properties of the whole loop

  /** No control token ever enters the accumulation. */
  lemma {:induction false} RunKeepsClean(s: Snapshot, trace: seq<Transfer>)
    requires |s.data| == BufferLength && Clean(s.out)
    ensures Clean(Run(s, trace).0.out)
    decreases |trace|
  {
    if trace != [] {
      var s1 := Step(s, trace[0]).0;
      assert Clean(s1.out);
      RunKeepsClean(s1, trace[1..]);
    }
  }

  /** Running two traces one after the other is running their concatenation. */
  lemma {:induction false} RunAppend(s: Snapshot, a: seq<Transfer>, b: seq<Transfer>)
    requires |s.data| == BufferLength
    ensures Run(s, a + b).0 == Run(Run(s, a).0, b).0
    ensures Run(s, a + b).1 == Run(s, a).1 + Run(Run(s, a).0, b).1
    decreases |a|
  {
    if a == [] {
      assert a + b == b;
    } else {
      assert (a + b)[0] == a[0] && (a + b)[1..] == a[1..] + b;
      var s1 := Step(s, a[0]).0;
      var e1 := Step(s, a[0]).1;
      RunCons(s, a + b);
      RunCons(s, a);
      RunAppend(s1, a[1..], b);
      SeqAssoc(e1, Run(s1, a[1..]).1, Run(Run(s1, a[1..]).0, b).1);
    }
  }

  /** The token a whole report contributes to the accumulation: none for "SHIFT" or a decode error. */
  function KeptOf(report: seq<uint8>): seq<string>
  {
    var p := ParseBuffer(report);
    if p.Token? && p.text != ShiftKeyStr then [p.text] else []
  }

  /** The tokens the loop keeps from a trace of successful reads, in order. */
  function Kept(trace: seq<Transfer>): seq<string>
  {
    if trace == [] then [] else KeptOf(trace[0].bytes) + Kept(trace[1..])
  }

  /** The kept tokens of a trace: those of its first read, then those of the rest. */
  lemma KeptCons(trace: seq<Transfer>)
    requires trace != []
    ensures Kept(trace) == KeptOf(trace[0].bytes) + Kept(trace[1..])
  {
  }

  /** A read that delivers a whole report without error. */
  predicate Whole(t: Transfer)
  {
    !t.failed && |t.bytes| == BufferLength
  }

  /** Whole reads none of which carries keycode 40, so none decodes to "ENTER". */
  predicate Unterminated(trace: seq<Transfer>)
  {
    forall i :: 0 <= i < |trace| ==> Whole(trace[i]) && trace[i].bytes[2] != 40
  }

  /** A whole report that is not "ENTER" replaces the buffer and adds its kept token. */
  lemma StepWhole(s: Snapshot, t: Transfer)
    requires |s.data| == BufferLength && Whole(t) && t.bytes[2] != 40
    ensures Step(s, t) == (Snapshot(t.bytes, s.out + KeptOf(t.bytes)), [])
  {
    FullReadOverwrites(s.data, t.bytes);
    EnterIffKeycode40(t.bytes);
    var p := ParseBuffer(t.bytes);
    if p.Token? && p.text != ShiftKeyStr {
      assert Accumulate(s.out, p.text) == (s.out + [p.text], []);
    } else {
      assert KeptOf(t.bytes) == [] && s.out + [] == s.out;
    }
  }

  /** One whole non-"ENTER" read at the head of a trace: the run continues from the state it leaves, having sent nothing. */
  lemma RunConsWhole(s: Snapshot, trace: seq<Transfer>)
    requires |s.data| == BufferLength && trace != [] && Whole(trace[0]) && trace[0].bytes[2] != 40
    ensures Run(s, trace) == Run(Snapshot(trace[0].bytes, s.out + KeptOf(trace[0].bytes)), trace[1..])
  {
    RunCons(s, trace);
    StepWhole(s, trace[0]);
    var rest := Run(Snapshot(trace[0].bytes, s.out + KeptOf(trace[0].bytes)), trace[1..]);
    assert [] + rest.1 == rest.1;
  }

  /** Without an "ENTER", the loop only accumulates: nothing is sent. */
  lemma {:induction false} AccumulatesUntilEnter(s: Snapshot, trace: seq<Transfer>)
    requires |s.data| == BufferLength && Unterminated(trace)
    ensures Run(s, trace).0.out == s.out + Kept(trace)
    ensures trace != [] ==> Run(s, trace).0.data == trace[|trace| - 1].bytes
    ensures Run(s, trace).1 == []
    decreases |trace|
  {
    if trace != [] {
      var rest := trace[1..];
      var s1 := Snapshot(trace[0].bytes, s.out + KeptOf(trace[0].bytes));
      RunConsWhole(s, trace);
      assert Unterminated(rest) by {
        forall i | 0 <= i < |rest| ensures Whole(rest[i]) && rest[i].bytes[2] != 40 {
          assert rest[i] == trace[i + 1];
        }
      }
      AccumulatesUntilEnter(s1, rest);
      KeptCons(trace);
      SeqAssoc(s.out, KeptOf(trace[0].bytes), Kept(rest));
    }
  }

  /**
   * A scan: reads without "ENTER" and then the terminator report send
   * exactly one string, the join of everything accumulated, when that is
   * non-empty (and nothing otherwise), and leave `out` empty.
   */
  lemma ScanSendsJoin(s: Snapshot, trace: seq<Transfer>)
    requires |s.data| == BufferLength && Unterminated(trace)
    ensures var acc := s.out + Kept(trace);
      var r := Run(s, trace + [Transfer(Terminator, false)]);
      r.0.out == [] && r.1 == (if |acc| > 0 then [Join(acc)] else [])
  {
    AccumulatesUntilEnter(s, trace);
    RunAppend(s, trace, [Transfer(Terminator, false)]);
    var s1 := Run(s, trace).0;
    StepEnter(s1);
    RunCons(s1, [Transfer(Terminator, false)]);
    assert [Transfer(Terminator, false)][1..] == [];
  }

  /** The Enter report sends the accumulation when it is non-empty, and then empties it. */
  lemma StepEnter(s: Snapshot)
    requires |s.data| == BufferLength
    ensures Step(s, Transfer(Terminator, false)) ==
      (Snapshot(Terminator, if |s.out| > 0 then [] else s.out), if |s.out| > 0 then [Join(s.out)] else [])
  {
    FullReadOverwrites(s.data, Terminator);
    PatternsDecode(Terminator);
  }

  /** The reads a scanner produces when it reads the symbol `code`, without the final Enter. */
  function Typed(code: string): (trace: seq<Transfer>)
    requires forall i :: 0 <= i < |code| ==> Typeable(code[i])
    ensures |trace| == |code|
  {
    if code == [] then []
    else
      KeyStrokeRoundTrip(code[0]);
      [Transfer(KeyStroke(code[0]).value, false)] + Typed(code[1..])
  }

  /** The first typed character is one whole report, without the Enter keycode, that keeps that character. */
  lemma {:induction false} TypedCons(code: string)
    requires code != [] && forall i :: 0 <= i < |code| ==> Typeable(code[i])
    ensures KeyStroke(code[0]).Some?
    ensures var t := Transfer(KeyStroke(code[0]).value, false);
      && Whole(t) && t.bytes[2] != 40 && KeptOf(t.bytes) == [[code[0]]]
      && Typed(code) == [t] + Typed(code[1..])
  {
    KeyStrokeRoundTrip(code[0]);
    EnterIffKeycode40(KeyStroke(code[0]).value);
  }

  /** A whole report without the Enter keycode in front of such reads keeps them such. */
  lemma UnterminatedCons(t: Transfer, rest: seq<Transfer>)
    requires Whole(t) && t.bytes[2] != 40 && Unterminated(rest)
    ensures Unterminated([t] + rest)
  {
    forall i | 0 <= i < |[t] + rest|
      ensures Whole(([t] + rest)[i]) && ([t] + rest)[i].bytes[2] != 40
    {
      if i > 0 {
        assert ([t] + rest)[i] == rest[i - 1];
      }
    }
  }

  /** Typed reads are whole reports, none of them carrying the Enter keycode. */
  lemma {:induction false} TypedUnterminated(code: string)
    requires forall i :: 0 <= i < |code| ==> Typeable(code[i])
    ensures Unterminated(Typed(code))
  {
    if code != [] {
      TypedCons(code);
      TypedUnterminated(code[1..]);
      UnterminatedCons(Transfer(KeyStroke(code[0]).value, false), Typed(code[1..]));
    }
  }

  /** The tokens kept from typed reads join back to `code`. */
  lemma {:induction false} TypedJoins(code: string)
    requires forall i :: 0 <= i < |code| ==> Typeable(code[i])
    ensures Join(Kept(Typed(code))) == code
  {
    if code != [] {
      var c, rest := code[0], Typed(code[1..]);
      TypedCons(code);
      var t := Transfer(KeyStroke(c).value, false);
      calc {
        Join(Kept(Typed(code)));
      ==  { KeptCons([t] + rest); assert ([t] + rest)[1..] == rest; }
        Join([[c]] + Kept(rest));
      ==  { JoinAppend([[c]], Kept(rest)); }
        Join([[c]]) + Join(Kept(rest));
      ==  { TypedJoins(code[1..]); assert Join([[c]]) == [c]; }
        [c] + code[1..];
      }
      assert [c] + code[1..] == code;
    }
  }

  /**
   * End to end: a scanner that types a non-empty symbol and then Enter
   * makes the loop send exactly that symbol, from any state with an empty
   * accumulation.
   */
  lemma BarcodeRoundTrip(s: Snapshot, code: string)
    requires |s.data| == BufferLength && s.out == []
    requires code != [] && forall i :: 0 <= i < |code| ==> Typeable(code[i])
    ensures Run(s, Typed(code) + [Transfer(Terminator, false)]).1 == [code]
  {
    TypedUnterminated(code);
    TypedJoins(code);
    ScanSendsJoin(s, Typed(code));
    assert s.out + Kept(Typed(code)) == Kept(Typed(code));
  }

  /** The reads of the worked examples: "1", then "!" typed with Shift held. */
  const One: Transfer := Transfer(KeyReport(0, 30), false)
  const Bang: Transfer := Transfer(KeyReport(ShiftModifier, 30), false)

  /** Both example reads are whole, carry no Enter, and keep "1" and "!". */
  lemma ExampleReads()
    ensures Whole(One) && One.bytes[2] != 40 && KeptOf(One.bytes) == ["1"]
    ensures Whole(Bang) && Bang.bytes[2] != 40 && KeptOf(Bang.bytes) == ["!"]
    ensures KeptOf(Zeros) == [""]
  {
    Examples();
  }

  /** The reports "1" and "!" followed by the terminator send "1!". */
  lemma ExampleScan()
    ensures Run(Start, [One, Bang, Transfer(Terminator, false)]).1 == ["1!"]
  {
    ExampleReads();
    var scan := [One, Bang];
    assert Unterminated(scan) by {
      forall i | 0 <= i < |scan| ensures Whole(scan[i]) && scan[i].bytes[2] != 40 {
        assert scan[i] == One || scan[i] == Bang;
      }
    }
    KeptCons(scan);
    assert scan[1..] == [Bang];
    KeptCons([Bang]);
    assert [Bang][1..] == [];
    assert Join(["1", "!"]) == "1!";
    ScanSendsJoin(Start, scan);
    assert scan + [Transfer(Terminator, false)] == [One, Bang, Transfer(Terminator, false)];
  }

  /** In the code the all-zero report is not a terminator: it adds the blank token Keys[0] and sends nothing. */
  lemma ExampleZeroReport()
    ensures Run(Start, [One, Bang, Transfer(Zeros, false)]) == (Snapshot(Zeros, ["1", "!", ""]), [])
  {
    ExampleReads();
    var zero := Transfer(Zeros, false);
    var scan := [One, Bang, zero];
    assert Unterminated(scan) by {
      forall i | 0 <= i < |scan| ensures Whole(scan[i]) && scan[i].bytes[2] != 40 {
        assert scan[i] == One || scan[i] == Bang || scan[i] == zero;
      }
    }
    KeptCons(scan);
    assert scan[1..] == [Bang, zero];
    KeptCons([Bang, zero]);
    assert [Bang, zero][1..] == [zero];
    KeptCons([zero]);
    assert [zero][1..] == [];
    assert Kept(scan) == ["1", "!", ""];
    AccumulatesUntilEnter(Start, scan);
    var r := Run(Start, scan);
    assert r.0.out == [] + ["1", "!", ""] == ["1", "!", ""];
    assert r.0.data == scan[2].bytes == Zeros;
    assert r.0 == Snapshot(Zeros, ["1", "!", ""]);
  }

  /**
   * `CRead` discards the byte count of each read, so a short read is decoded
   * over the stale rest of the buffer: two bytes `[2, 0]` over a stored Enter
   * report leave `[2, 0, 40, 0, 0, 0, 0, 0]`, which decodes to "ENTER" and
   * flushes `out`.
   */
  lemma ShortReadOverStaleEnter()
    ensures Step(Snapshot(Terminator, ["a"]), Transfer([2, 0], false))
      == (Snapshot([2, 0, 40, 0, 0, 0, 0, 0], []), ["a"])
  {
    var data := Fill(Terminator, [2, 0]);
    assert data == [2, 0, 40, 0, 0, 0, 0, 0];
    EnterIffKeycode40(data);
    assert Join(["a"]) == "a";
  }
}
