/**
 * Single-scan mode (`Read`): opens the endpoint, insists on a complete
 * first report, then reads until a report decodes to "ENTER" and returns
 * the tokens gathered. Unlike the continuous loop, this loop ignores decode
 * errors (their "" text is kept as a token), and an "ENTER" in the first
 * report does not end the read. A trace that runs out before an "ENTER"
 * stands for a read that is still blocked.
 */
module SingleRead {
  import opened Common
  import opened HidCodec
  import opened Transport
  import opened ContinuousRead

  /** The errors `Read` can return. */
  datatype ReadError =
    | OpenFailed
    | ErrorDeviceReadIncomplete
    | ParseFailed(error: ParseError)

  /** What `Read` does with a trace: it returns `(out, err)`, or it is still waiting for reads. */
  datatype ReadOutcome =
    | Returned(out: seq<string>, err: Option<ReadError>)
    | Waiting(out: seq<string>)

  /** The read loop after the first report, from buffer `data` and accumulation `out`. */
  function ReadLoop(data: seq<uint8>, out: seq<string>, trace: seq<Transfer>): ReadOutcome
    requires |data| == BufferLength
    decreases |trace|
  {
    if trace == [] then Waiting(out)
    else
      var next := Fill(data, trace[0].bytes);
      if trace[0].failed then ReadLoop(next, out, trace[1..])
      else
        var d := ParseBuffer(next).Text();
        if d == TerminatorStr then Returned(Keep(out, d), None)
        else ReadLoop(next, Keep(out, d), trace[1..])
  }

  /** The whole of `Read`: open, the first report, then the loop. */
  function ReadSpec(endpointOpen: bool, trace: seq<Transfer>): ReadOutcome
  {
    if !endpointOpen then Returned([], Some(OpenFailed))
    else if trace == [] then Waiting([])
    else if Count(trace[0].bytes) != BufferLength then Returned([], Some(ErrorDeviceReadIncomplete))
    else
      var data := Fill(Zeros, trace[0].bytes);
      var p := ParseBuffer(data);
      if p.Failure? then Returned([], Some(ParseFailed(p.error)))
      else ReadLoop(data, Keep([], p.text), trace[1..])
  }

  /** `Read` over a finite trace of reads, with the opening of the endpoint reduced to `endpointOpen`. */
  method Read(endpointOpen: bool, trace: seq<Transfer>) returns (res: ReadOutcome)
    ensures res == ReadSpec(endpointOpen, trace)
  {
    var data := new uint8[BufferLength](_ => 0);
    assert data[..] == Zeros;
    if !endpointOpen {
      return Returned([], Some(OpenFailed));
    }
    if trace == [] {
      return Waiting([]);
    }
    // a read error on the first report is only logged; its length decides
    var n, _ := EndpointRead(data, trace[0]);
    if n != BufferLength {
      return Returned([], Some(ErrorDeviceReadIncomplete));
    }
    var p := ParseBuffer(data[..]);
    if p.Failure? {
      return Returned([], Some(ParseFailed(p.error)));
    }
    var out: seq<string> := [];
    var d := p.text;
    if d != TerminatorStr && d != ShiftKeyStr {
      out := out + [d];
    }
    var i := 1;
    while i < |trace|
      invariant 1 <= i <= |trace|
      invariant ReadLoop(data[..], out, trace[i..]) == ReadSpec(endpointOpen, trace)
    {
      assert trace[i..][1..] == trace[i + 1..];
      var _, failed := EndpointRead(data, trace[i]);
      i := i + 1;
      if failed {
        continue;
      }
      // a decode error is ignored here: its "" text is kept
      d := ParseBuffer(data[..]).Text();
      if d != TerminatorStr && d != ShiftKeyStr {
        out := out + [d];
      }
      if d == TerminatorStr {
        return Returned(out, None);
      }
    }
    return Waiting(out);
  }

  // ---------------------------------------------------------------------
  // The first report

  /** Every error path of `Read` returns an empty `out`, and a decode error there is never a length error. */
  lemma ErrorsCarryNothing(endpointOpen: bool, trace: seq<Transfer>)
    ensures ReadSpec(endpointOpen, trace).Returned? && ReadSpec(endpointOpen, trace).err.Some? ==>
      ReadSpec(endpointOpen, trace).out == [] && ReadSpec(endpointOpen, trace).err != Some(ParseFailed(ErrorBufferLength))
  {
    if endpointOpen && trace != [] && Count(trace[0].bytes) == BufferLength {
      var data := Fill(Zeros, trace[0].bytes);
      SucceedsIff(data);
      LoopNeverFails(data, Keep([], ParseBuffer(data).Text()), trace[1..]);
    }
  }

  /** The loop itself never returns an error. */
  lemma {:induction false} LoopNeverFails(data: seq<uint8>, out: seq<string>, trace: seq<Transfer>)
    requires |data| == BufferLength
    ensures ReadLoop(data, out, trace).Returned? ==> ReadLoop(data, out, trace).err == None
    decreases |trace|
  {
    if trace != [] {
      LoopNeverFails(Fill(data, trace[0].bytes), out, trace[1..]);
      LoopNeverFails(Fill(data, trace[0].bytes), Keep(out, ParseBuffer(Fill(data, trace[0].bytes)).Text()), trace[1..]);
    }
  }

  /** A first read shorter than a report fails with ErrorDeviceReadIncomplete, whether or not the library also reported an error. */
  lemma ShortFirstRead(trace: seq<Transfer>)
    requires trace != [] && |trace[0].bytes| < BufferLength
    ensures ReadSpec(true, trace) == Returned([], Some(ErrorDeviceReadIncomplete))
  {
  }

  /** A complete first report with an error flag is still decoded: only its length is checked. */
  lemma FirstReadErrorIgnored(t: Transfer, rest: seq<Transfer>)
    requires |t.bytes| == BufferLength
    ensures ReadSpec(true, [t] + rest) == ReadSpec(true, [Transfer(t.bytes, false)] + rest)
  {
    assert ([t] + rest)[1..] == rest;
    assert ([Transfer(t.bytes, false)] + rest)[1..] == rest;
  }

  /** An undecodable first report is returned as the error, with nothing read. */
  lemma BadFirstKey(trace: seq<Transfer>)
    requires trace != [] && |trace[0].bytes| == BufferLength && trace[0].bytes[2] >= |Keys|
    ensures ReadSpec(true, trace) == Returned([], Some(ParseFailed(UnexpectedKey(trace[0].bytes[2]))))
  {
    FullReadOverwrites(Zeros, trace[0].bytes);
    SucceedsIff(trace[0].bytes);
  }

  /** An "ENTER" as the first report does not end the read: the loop starts with an empty `out`. */
  lemma EnterFirstDoesNotEnd(rest: seq<Transfer>)
    ensures ReadSpec(true, [Transfer(Terminator, false)] + rest) == ReadLoop(Terminator, [], rest)
    ensures ReadSpec(true, [Transfer(Terminator, false)]) == Waiting([])
  {
    FullReadOverwrites(Zeros, Terminator);
    PatternsDecode(Terminator);
    assert ([Transfer(Terminator, false)] + rest)[1..] == rest;
    assert [Transfer(Terminator, false)][1..] == [];
  }

  // ---------------------------------------------------------------------
  // The loop

  /** A failed read is skipped, although the bytes it delivered stay in the buffer. */
  lemma LoopSkipsFailed(data: seq<uint8>, out: seq<string>, t: Transfer, rest: seq<Transfer>)
    requires |data| == BufferLength && t.failed
    ensures ReadLoop(data, out, [t] + rest) == ReadLoop(Fill(data, t.bytes), out, rest)
  {
    assert ([t] + rest)[1..] == rest;
  }

  /** An undecodable report inside the loop appends its "" text instead of being skipped. */
  lemma LoopKeepsBlankOnError(data: seq<uint8>, out: seq<string>, t: Transfer, rest: seq<Transfer>)
    requires |data| == BufferLength && !t.failed && ParseBuffer(Fill(data, t.bytes)).Failure?
    ensures ReadLoop(data, out, [t] + rest) == ReadLoop(Fill(data, t.bytes), out + [""], rest)
  {
    assert ([t] + rest)[1..] == rest;
  }

  /** Any whole report with keycode 40 ends the loop, returning `out` and no error. */
  lemma LoopStopsAtEnter(data: seq<uint8>, out: seq<string>, t: Transfer, rest: seq<Transfer>)
    requires |data| == BufferLength && Whole(t) && t.bytes[2] == 40
    ensures ReadLoop(data, out, [t] + rest) == Returned(out, None)
  {
    FullReadOverwrites(data, t.bytes);
    EnterIffKeycode40(t.bytes);
    assert ([t] + rest)[1..] == rest;
  }

  /** The token a whole report adds in the loop: its text, unless it is "SHIFT". */
  function LoopKeptOf(report: seq<uint8>): seq<string>
  {
    var d := ParseBuffer(report).Text();
    if d != ShiftKeyStr then [d] else []
  }

  /** The tokens the loop keeps from a trace of whole reads, in order. */
  function LoopKept(trace: seq<Transfer>): seq<string>
  {
    if trace == [] then [] else LoopKeptOf(trace[0].bytes) + LoopKept(trace[1..])
  }

  /** A whole non-"ENTER" report at the head: the loop goes on from that report with its token kept. */
  lemma LoopConsWhole(data: seq<uint8>, out: seq<string>, trace: seq<Transfer>)
    requires |data| == BufferLength && trace != [] && Whole(trace[0]) && trace[0].bytes[2] != 40
    ensures ReadLoop(data, out, trace) == ReadLoop(trace[0].bytes, out + LoopKeptOf(trace[0].bytes), trace[1..])
  {
    FullReadOverwrites(data, trace[0].bytes);
    EnterIffKeycode40(trace[0].bytes);
    var d := ParseBuffer(trace[0].bytes).Text();
    if d == ShiftKeyStr {
      assert out + [] == out;
    }
  }

  /** The loop's kept tokens of a trace: those of its first read, then those of the rest. */
  lemma LoopKeptCons(trace: seq<Transfer>)
    requires trace != []
    ensures LoopKept(trace) == LoopKeptOf(trace[0].bytes) + LoopKept(trace[1..])
  {
  }

  /**
   * Whole reads without "ENTER" and then the terminator: the loop returns
   * everything kept, with no error, and does not look at later reads.
   */
  lemma {:induction false} LoopUntilEnter(data: seq<uint8>, out: seq<string>, trace: seq<Transfer>, after: seq<Transfer>)
    requires |data| == BufferLength && Unterminated(trace)
    ensures ReadLoop(data, out, trace + [Transfer(Terminator, false)] + after) == Returned(out + LoopKept(trace), None)
    decreases |trace|
  {
    var all := trace + [Transfer(Terminator, false)] + after;
    if trace == [] {
      assert all == [Transfer(Terminator, false)] + after;
      LoopStopsAtEnter(data, out, Transfer(Terminator, false), after);
      assert out + [] == out;
    } else {
      var rest := trace[1..];
      assert all[0] == trace[0];
      assert all[1..] == rest + [Transfer(Terminator, false)] + after;
      LoopConsWhole(data, out, all);
      assert Unterminated(rest) by {
        forall i | 0 <= i < |rest| ensures Whole(rest[i]) && rest[i].bytes[2] != 40 {
          assert rest[i] == trace[i + 1];
        }
      }
      LoopUntilEnter(trace[0].bytes, out + LoopKeptOf(trace[0].bytes), rest, after);
      LoopKeptCons(trace);
      SeqAssoc(out, LoopKeptOf(trace[0].bytes), LoopKept(rest));
    }
  }

  /** For reads a scanner typed, the loop keeps the same tokens the continuous loop does. */
  lemma {:induction false} TypedKeptAgree(code: string)
    requires forall i :: 0 <= i < |code| ==> Typeable(code[i])
    ensures LoopKept(Typed(code)) == Kept(Typed(code))
  {
    if code != [] {
      var c := code[0];
      KeyStrokeRoundTrip(c);
      TypedKeptAgree(code[1..]);
      var t := Transfer(KeyStroke(c).value, false);
      assert Typed(code) == [t] + Typed(code[1..]);
      assert ([t] + Typed(code[1..]))[1..] == Typed(code[1..]);
      LoopKeptCons(Typed(code));
      KeptCons(Typed(code));
    }
  }

  /** A complete first report that decodes: the loop starts from it, holding its token unless that is a control token. */
  lemma ReadFirstWhole(trace: seq<Transfer>)
    requires trace != [] && |trace[0].bytes| == BufferLength && ParseBuffer(trace[0].bytes).Token?
    ensures ReadSpec(true, trace) == ReadLoop(trace[0].bytes, Keep([], ParseBuffer(trace[0].bytes).text), trace[1..])
  {
    FullReadOverwrites(Zeros, trace[0].bytes);
  }

  /** The tokens of a typed symbol, split after its first character, still join to the symbol. */
  lemma TypedJoinSplit(code: string)
    requires code != [] && forall i :: 0 <= i < |code| ==> Typeable(code[i])
    ensures Join([[code[0]]] + Kept(Typed(code[1..]))) == code
  {
    var c := code[0];
    KeyStrokeRoundTrip(c);
    TypedJoins(code);
    KeptCons(Typed(code));
    assert Typed(code)[0].bytes == KeyStroke(c).value;
    assert Typed(code)[1..] == Typed(code[1..]);
    assert KeptOf(KeyStroke(c).value) == [[c]];
  }

  /** The first typed character is the complete first report: the loop starts holding it. */
  lemma ReadTypedFirst(code: string, after: seq<Transfer>)
    requires code != [] && forall i :: 0 <= i < |code| ==> Typeable(code[i])
    ensures KeyStroke(code[0]).Some? && |KeyStroke(code[0]).value| == BufferLength
    ensures ReadSpec(true, Typed(code) + [Transfer(Terminator, false)] + after)
      == ReadLoop(KeyStroke(code[0]).value, [[code[0]]], Typed(code[1..]) + [Transfer(Terminator, false)] + after)
  {
    var c := code[0];
    KeyStrokeRoundTrip(c);
    TypedTraceSplits(code, after);
    var first, later := Transfer(KeyStroke(c).value, false), Typed(code[1..]) + [Transfer(Terminator, false)] + after;
    assert ([first] + later)[0] == first && ([first] + later)[1..] == later;
    EnterIffKeycode40(first.bytes);
    ReadFirstWhole([first] + later);
    assert Keep([], [c]) == [[c]];
  }

  /** A typed symbol followed by Enter starts with the first character's report. */
  lemma {:induction false} TypedTraceSplits(code: string, after: seq<Transfer>)
    requires code != [] && forall i :: 0 <= i < |code| ==> Typeable(code[i])
    ensures KeyStroke(code[0]).Some?
    ensures Typed(code) + [Transfer(Terminator, false)] + after
      == [Transfer(KeyStroke(code[0]).value, false)] + (Typed(code[1..]) + [Transfer(Terminator, false)] + after)
  {
    var c, tail, enter := code[0], code[1..], [Transfer(Terminator, false)];
    KeyStrokeRoundTrip(c);
    var first := [Transfer(KeyStroke(c).value, false)];
    calc {
      Typed(code) + enter + after;
    ==  { assert Typed(code) == first + Typed(tail); }
      first + Typed(tail) + enter + after;
    ==  { SeqAssoc(first, Typed(tail), enter); }
      first + (Typed(tail) + enter) + after;
    ==  { SeqAssoc(first, Typed(tail) + enter, after); }
      first + (Typed(tail) + enter + after);
    }
  }

  /**
   * After the first typed character, the loop returns tokens that join to
   * the whole symbol, with no error, whatever reads follow the Enter. With
   * `ReadTypedFirst` this is the end-to-end round trip of `Read`: a scanner
   * that types a non-empty symbol and then Enter makes `Read` return that
   * symbol.
   */
  lemma LoopTypedRest(code: string, after: seq<Transfer>)
    requires code != [] && forall i :: 0 <= i < |code| ==> Typeable(code[i])
    requires KeyStroke(code[0]).Some? && |KeyStroke(code[0]).value| == BufferLength
    ensures var r := ReadLoop(KeyStroke(code[0]).value, [[code[0]]], Typed(code[1..]) + [Transfer(Terminator, false)] + after);
      r.Returned? && r.err == None && Join(r.out) == code
  {
    var c, tail := code[0], code[1..];
    TypedUnterminated(tail);
    LoopUntilEnter(KeyStroke(c).value, [[c]], Typed(tail), after);
    TypedKeptAgree(tail);
    TypedJoinSplit(code);
  }

  /**
   * End to end: a scanner that types a non-empty symbol and then Enter
   * makes `Read` return, with no error, tokens that join to that symbol,
   * whatever reads follow.
   */
  lemma {:induction false} ReadRoundTrip(code: string, after: seq<Transfer>)
    requires code != [] && forall i :: 0 <= i < |code| ==> Typeable(code[i])
    ensures ReadSpec(true, Typed(code) + [Transfer(Terminator, false)] + after).Returned?
    ensures ReadSpec(true, Typed(code) + [Transfer(Terminator, false)] + after).err == None
    ensures Join(ReadSpec(true, Typed(code) + [Transfer(Terminator, false)] + after).out) == code
  {
    ReadTypedFirst(code, after);
    LoopTypedRest(code, after);
  }
}
