/**
 * The accounting loop of `main`: every decoded line either spends an output
 * (removing its key from the live set, counting one input) or creates one
 * (inserting its key, counting one output). At end of input the program
 * prints the live-set size and both counters.
 *
 * The state is the `Tally` class; `Replay` is the specification of a whole
 * run over already-split records, and `Run` is the loop proved against it.
 */
module LiveSet {
  import opened Wrappers
  import opened Bytes
  import opened Encoding
  import opened Record

  /** The live set after one line: a spend removes its key, a creation
      inserts it; no other key is affected. */
  function Track(live: set<Key>, line: Line): (r: set<Key>)
    ensures line.key in r <==> !line.input
    ensures forall k | k != line.key :: k in r <==> k in live
    ensures line.input && line.key !in live ==> r == live
    ensures !line.input && line.key in live ==> r == live
    ensures |r| <= |live| + (if line.input then 0 else 1)
  {
    if line.input then live - {line.key} else live + {line.key}
  }

  /** The program's state between two lines. */
  datatype Snapshot = Snapshot(live: set<Key>, nInput: U32, nOutput: U32)

  /** Why a run stops without printing anything: a record `parse` rejects,
      or a counter increment that would overflow u32 (a debug-build trap). */
  datatype Panic = BadRecord(at: nat, error: ParseError) | CounterOverflow(at: nat)

  // ----------------------------------------------- specification over lines

  /** How many of the lines are spends. */
  function Spends(lines: seq<Line>): nat {
    if lines == [] then 0
    else Spends(lines[..|lines| - 1]) + (if lines[|lines| - 1].input then 1 else 0)
  }

  /** How many of the lines are creations. */
  function Creations(lines: seq<Line>): nat {
    if lines == [] then 0
    else Creations(lines[..|lines| - 1]) + (if lines[|lines| - 1].input then 0 else 1)
  }

  /** The live set after the lines, starting from the empty set. */
  function LiveAfter(lines: seq<Line>): set<Key> {
    if lines == [] then {}
    else Track(LiveAfter(lines[..|lines| - 1]), lines[|lines| - 1])
  }

  /** Every line is either a spend or a creation. */
  lemma {:induction false} CountsAddUp(lines: seq<Line>)
    ensures Spends(lines) + Creations(lines) == |lines|
  {
    if lines != [] {
      CountsAddUp(lines[..|lines| - 1]);
    }
  }

  /** The live set never holds more keys than there were creations. */
  lemma {:induction false} LiveBound(lines: seq<Line>)
    ensures |LiveAfter(lines)| <= Creations(lines)
  {
    if lines != [] {
      LiveBound(lines[..|lines| - 1]);
    }
  }

  /** Line i creates k and no later line spends k. */
  ghost predicate CreatedNotSpentSince(lines: seq<Line>, i: int, k: Key) {
    && 0 <= i < |lines|
    && !lines[i].input && lines[i].key == k
    && forall j | i < j < |lines| :: !(lines[j].input && lines[j].key == k)
  }

  /** A key is live exactly when some line created it and no later line
      spent it. */
  lemma {:induction false} LiveMembership(lines: seq<Line>, k: Key)
    ensures k in LiveAfter(lines) <==> exists i :: CreatedNotSpentSince(lines, i, k)
  {
    if lines != [] {
      var n := |lines| - 1;
      var init, line := lines[..n], lines[n];
      LiveMembership(init, k);
      assert LiveAfter(lines) == Track(LiveAfter(init), line);
      if line.key != k {
        OtherKeyKeepsWitnesses(lines, k);
        assert k in LiveAfter(lines) <==> k in LiveAfter(init);
        if i :| CreatedNotSpentSince(init, i, k) {
          assert CreatedNotSpentSince(lines, i, k);
        }
      } else if !line.input {
        assert CreatedNotSpentSince(lines, n, k);
      }
    }
  }

  /** A last line about another key changes no witness for k. */
  lemma OtherKeyKeepsWitnesses(lines: seq<Line>, k: Key)
    requires lines != [] && lines[|lines| - 1].key != k
    ensures forall i :: CreatedNotSpentSince(lines, i, k) <==> CreatedNotSpentSince(lines[..|lines| - 1], i, k)
  {
    var n := |lines| - 1;
    forall i ensures CreatedNotSpentSince(lines, i, k) <==> CreatedNotSpentSince(lines[..n], i, k) {
      if 0 <= i < n {
        assert forall j | i < j < n :: lines[..n][j] == lines[j];
      }
    }
  }

  // --------------------------------------------- specification over records

  /** What `parse` made of each record, in input order. */
  function DecodeAll(records: seq<seq<string>>): (d: seq<Result<Line, ParseError>>)
    ensures |d| == |records|
    ensures forall i | 0 <= i < |records| :: d[i] == Parse(records[i])
  {
    seq(|records|, i requires 0 <= i < |records| => Parse(records[i]))
  }

  predicate AllDecoded(decoded: seq<Result<Line, ParseError>>) {
    forall i | 0 <= i < |decoded| :: decoded[i].Success?
  }

  /** The lines of a run in which every record decodes. */
  function Lines(decoded: seq<Result<Line, ParseError>>): (lines: seq<Line>)
    requires AllDecoded(decoded)
    ensures |lines| == |decoded|
    ensures forall i | 0 <= i < |decoded| :: decoded[i] == Success(lines[i])
  {
    if decoded == [] then []
    else Lines(decoded[..|decoded| - 1]) + [decoded[|decoded| - 1].value]
  }

  /** One pass of `main`'s loop on state s, for record number `at`. */
  function Next(s: Snapshot, at: nat, record: Result<Line, ParseError>): Result<Snapshot, Panic>
  {
    match record
    case Failure(e) => Failure(BadRecord(at, e))
    case Success(line) =>
      if line.input then
        if s.nInput == MaxU32 then Failure(CounterOverflow(at))
        else Success(Snapshot(Track(s.live, line), s.nInput + 1, s.nOutput))
      else
        if s.nOutput == MaxU32 then Failure(CounterOverflow(at))
        else Success(Snapshot(Track(s.live, line), s.nInput, s.nOutput + 1))
  }

  /** A pass panics, at its own record, on a record that does not decode or
      on a counter already at u32::MAX; otherwise the set is tracked and
      exactly the matching counter grows. */
  lemma NextSpec(s: Snapshot, at: nat, record: Result<Line, ParseError>)
    ensures var r := Next(s, at, record);
      && (r.Success? <==>
          record.Success? && (if record.value.input then s.nInput < MaxU32 else s.nOutput < MaxU32))
      && (record.Failure? ==> r == Failure(BadRecord(at, record.error)))
      && (record.Success? && r.Failure? ==> r == Failure(CounterOverflow(at)))
      && (r.Success? ==>
          && r.value.live == Track(s.live, record.value)
          && r.value.nInput == s.nInput + (if record.value.input then 1 else 0)
          && r.value.nInput + r.value.nOutput == s.nInput + s.nOutput + 1)
  {
  }

  /** What `main` computes from the decoded records, one at a time, stopping
      at the first panic. */
  function Replay(decoded: seq<Result<Line, ParseError>>): Result<Snapshot, Panic> {
    if decoded == [] then Success(Snapshot({}, 0, 0))
    else
      var n := |decoded| - 1;
      match Replay(decoded[..n])
      case Failure(p) => Failure(p)
      case Success(s) => Next(s, n, decoded[n])
  }

  lemma ReplayNext(decoded: seq<Result<Line, ParseError>>, i: nat, s: Snapshot)
    requires i < |decoded| && Replay(decoded[..i]) == Success(s)
    ensures Replay(decoded[..i + 1]) == Next(s, i, decoded[i])
  {
    assert decoded[..i + 1][..i] == decoded[..i];
  }

  /** Once a prefix has panicked, the rest of the input is never read. */
  lemma {:induction false} ReplayStops(decoded: seq<Result<Line, ParseError>>, i: nat)
    requires i <= |decoded| && Replay(decoded[..i]).Failure?
    ensures Replay(decoded) == Replay(decoded[..i])
    decreases |decoded| - i
  {
    if i < |decoded| {
      assert decoded[..i + 1][..i] == decoded[..i];
      ReplayStops(decoded, i + 1);
    } else {
      assert decoded[..i] == decoded;
    }
  }

  /** A run succeeds exactly when every record decodes and neither counter
      exceeds u32::MAX; it then ends with the live set and counters of the
      decoded lines. */
  lemma {:induction false} ReplaySucceeds(decoded: seq<Result<Line, ParseError>>)
    ensures Replay(decoded).Success? <==>
      AllDecoded(decoded) && Spends(Lines(decoded)) <= MaxU32 && Creations(Lines(decoded)) <= MaxU32
    ensures Replay(decoded).Success? ==>
      var lines := Lines(decoded);
      Replay(decoded).value == Snapshot(LiveAfter(lines), Spends(lines), Creations(lines))
  {
    if decoded != [] {
      var n := |decoded| - 1;
      var init := decoded[..n];
      ReplaySucceeds(init);
      if AllDecoded(decoded) {
        LinesExtend(decoded);
      } else if AllDecoded(init) {
        assert decoded[n].Failure?;
      }
    }
  }

  lemma LinesExtend(decoded: seq<Result<Line, ParseError>>)
    requires decoded != [] && AllDecoded(decoded)
    ensures AllDecoded(decoded[..|decoded| - 1])
    ensures var n, lines, before := |decoded| - 1, Lines(decoded), Lines(decoded[..|decoded| - 1]);
      && decoded[n] == Success(lines[n])
      && Spends(lines) == Spends(before) + (if lines[n].input then 1 else 0)
      && Creations(lines) == Creations(before) + (if lines[n].input then 0 else 1)
      && LiveAfter(lines) == Track(LiveAfter(before), lines[n])
  {
    var n := |decoded| - 1;
    var init := decoded[..n];
    assert AllDecoded(init) by {
      forall i | 0 <= i < n ensures init[i].Success? {
        assert init[i] == decoded[i];
      }
    }
    var lines := Lines(decoded);
    assert lines[..n] == Lines(init);
  }

  /** Record i decodes, as do all before it, and its line takes a counter
      past u32::MAX. */
  ghost predicate OverflowsAt(decoded: seq<Result<Line, ParseError>>, i: nat) {
    && i < |decoded|
    && AllDecoded(decoded[..i + 1])
    && var lines := Lines(decoded[..i + 1]);
       Spends(lines) > MaxU32 || Creations(lines) > MaxU32
  }

  /** A run that panics stops at the first bad record or at the line whose
      counter would overflow; every record before it decodes. */
  lemma {:induction false} ReplayFails(decoded: seq<Result<Line, ParseError>>)
    requires Replay(decoded).Failure?
    ensures Replay(decoded).error.at < |decoded|
    ensures Replay(decoded[..Replay(decoded).error.at]).Success?
    ensures AllDecoded(decoded[..Replay(decoded).error.at])
    ensures Replay(decoded).error.BadRecord? ==>
      decoded[Replay(decoded).error.at] == Failure(Replay(decoded).error.error)
    ensures Replay(decoded).error.CounterOverflow? ==> OverflowsAt(decoded, Replay(decoded).error.at)
  {
    assert decoded != [];
    var n := |decoded| - 1;
    var init := decoded[..n];
    if Replay(init).Failure? {
      ReplayFails(init);
      var p := Replay(init).error;
      assert init[..p.at] == decoded[..p.at];
      if p.CounterOverflow? {
        assert init[..p.at + 1] == decoded[..p.at + 1];
      }
    } else {
      PanicAtLast(decoded);
    }
  }

  /** The case of ReplayFails where the panic comes from the last record. */
  lemma PanicAtLast(decoded: seq<Result<Line, ParseError>>)
    requires decoded != [] && Replay(decoded[..|decoded| - 1]).Success?
    requires Replay(decoded).Failure?
    ensures Replay(decoded).error.at == |decoded| - 1
    ensures AllDecoded(decoded[..|decoded| - 1])
    ensures Replay(decoded).error.BadRecord? ==> decoded[|decoded| - 1] == Failure(Replay(decoded).error.error)
    ensures Replay(decoded).error.CounterOverflow? ==> OverflowsAt(decoded, |decoded| - 1)
  {
    ReplaySucceeds(decoded[..|decoded| - 1]);
    if Replay(decoded).error.CounterOverflow? {
      OverflowAtLast(decoded);
    }
  }

  lemma OverflowAtLast(decoded: seq<Result<Line, ParseError>>)
    requires decoded != [] && Replay(decoded[..|decoded| - 1]).Success?
    requires Replay(decoded).Failure? && Replay(decoded).error.CounterOverflow?
    ensures OverflowsAt(decoded, |decoded| - 1)
  {
    var n := |decoded| - 1;
    var init := decoded[..n];
    ReplaySucceeds(init);
    var s := Replay(init).value;
    assert decoded[..n + 1] == decoded;
    assert decoded[n].Success?;
    AllDecodedExtend(decoded);
    var lines := Lines(decoded);
    assert lines[..n] == Lines(init);
    assert Spends(lines) == s.nInput + (if lines[n].input then 1 else 0);
    assert Creations(lines) == s.nOutput + (if lines[n].input then 0 else 1);
  }

  lemma AllDecodedExtend(decoded: seq<Result<Line, ParseError>>)
    requires decoded != [] && AllDecoded(decoded[..|decoded| - 1]) && decoded[|decoded| - 1].Success?
    ensures AllDecoded(decoded)
  {
    var n := |decoded| - 1;
    forall i | 0 <= i < n ensures decoded[i].Success? {
      assert decoded[i] == decoded[..n][i];
    }
  }

  /** The summary `main` prints: inputs and outputs account for every line,
      and the live set is no larger than the number of outputs. */
  lemma ReplayTotals(decoded: seq<Result<Line, ParseError>>)
    requires Replay(decoded).Success?
    ensures var s := Replay(decoded).value;
      s.nInput + s.nOutput == |decoded| && |s.live| <= s.nOutput
  {
    ReplaySucceeds(decoded);
    CountsAddUp(Lines(decoded));
    LiveBound(Lines(decoded));
  }

  // ------------------------------------------------------------ the program

  /** The three mutable locals of `main`: the HashSet and both counters. */
  class Tally {
    var live: set<Key>
    var nInput: U32
    var nOutput: U32

    ghost predicate Valid()
      reads this
    {
      |live| <= nOutput
    }

    function Current(): Snapshot
      reads this
    {
      Snapshot(live, nInput, nOutput)
    }

    constructor ()
      ensures Valid()
      ensures live == {} && nInput == 0 && nOutput == 0
    {
      live, nInput, nOutput := {}, 0, 0;
    }

    /** The loop body: remove and count an input, or insert and count an
        output. The increment must not overflow. */
    method Step(line: Line)
      requires Valid()
      requires if line.input then nInput < MaxU32 else nOutput < MaxU32
      modifies this
      ensures Valid()
      ensures live == Track(old(live), line)
      ensures line.input ==> nInput == old(nInput) + 1 && nOutput == old(nOutput)
      ensures !line.input ==> nOutput == old(nOutput) + 1 && nInput == old(nInput)
    {
      if line.input {
        live := live - {line.key};
        nInput := nInput + 1;
      } else {
        live := live + {line.key};
        nOutput := nOutput + 1;
      }
    }

    /** One pass of the loop body: `parse` the record, then apply it. A
        panic (a record that does not decode, or a counter at u32::MAX)
        ends the run, so the state is then of no further interest. */
    method Consume(fields: seq<string>, at: nat) returns (panic: Option<Panic>)
      requires Valid()
      modifies this
      ensures Valid()
      ensures Next(old(Current()), at, Parse(fields)) ==
              if panic.None? then Success(Current()) else Failure(panic.value)
    {
      var record := Parse(fields);
      panic := Apply(record, at);
    }

    /** The loop body after `parse`: panic on a record that did not decode
        or on a counter already at u32::MAX, otherwise step. */
    method Apply(record: Result<Line, ParseError>, at: nat) returns (panic: Option<Panic>)
      requires Valid()
      modifies this
      ensures Valid()
      ensures Next(old(Current()), at, record) ==
              if panic.None? then Success(Current()) else Failure(panic.value)
    {
      ghost var before := Current();
      match record {
        case Failure(e) =>
          panic := Some(BadRecord(at, e));
        case Success(line) =>
          if (line.input && nInput == MaxU32) || (!line.input && nOutput == MaxU32) {
            panic := Some(CounterOverflow(at));
          } else {
            Step(line);
            assert Current() == Snapshot(Track(before.live, line), nInput, nOutput);
            panic := None;
          }
      }
    }
  }

  /** `main`'s loop over already-split records: decode each, then step. */
  method Run(records: seq<seq<string>>) returns (r: Result<Snapshot, Panic>)
    ensures r == Replay(DecodeAll(records))
  {
    ghost var decoded := DecodeAll(records);
    var tally := new Tally();
    var i := 0;
    while i < |records|
      invariant 0 <= i <= |records|
      invariant tally.Valid()
      invariant Replay(decoded[..i]) == Success(tally.Current())
    {
      ReplayNext(decoded, i, tally.Current());
      assert decoded[i] == Parse(records[i]);
      var panic := tally.Consume(records[i], i);
      if panic.Some? {
        r := Failure(panic.value);
        ReplayStops(decoded, i + 1);
        return;
      }
      i := i + 1;
    }
    assert decoded[..i] == decoded;
    r := Success(tally.Current());
  }

  /**
   * End to end: create output 0 of t and output 1 of u, then spend output 0
   * of t naming it by the reversed id. The spend finds the created key, so
   * only u's output is left live, with one input and two outputs counted.
   */
  lemma SpendMatchesCreation(t: seq<Byte>, u: seq<Byte>)
    ensures
      var records := [RecordText(false, 10, t, 0), RecordText(false, 20, u, 1),
                      RecordText(true, 30, Reverse(t), 0)];
      Replay(DecodeAll(records)) == Success(Snapshot({MakeKey(false, u, 1)}, 1, 2))
  {
    var records := [RecordText(false, 10, t, 0), RecordText(false, 20, u, 1),
                    RecordText(true, 30, Reverse(t), 0)];
    var kt, ku := MakeKey(false, t, 0), MakeKey(false, u, 1);
    ParseRecordText(false, 10, t, 0);
    ParseRecordText(false, 20, u, 1);
    ParseRecordText(true, 30, Reverse(t), 0);
    KeyCanonical(t, 0);
    assert kt != ku by {
      if |t| == |u| {
        assert kt[|t|..] != ku[|u|..];
      }
    }
    var decoded := DecodeAll(records);
    assert decoded[0] == Success(Line(false, 10, kt));
    assert decoded[1] == Success(Line(false, 20, ku));
    assert decoded[2] == Success(Line(true, 30, kt));
    ReplaySpendAfterCreations(decoded, kt, ku);
  }

  lemma ReplaySpendAfterCreations(decoded: seq<Result<Line, ParseError>>, kt: Key, ku: Key)
    requires kt != ku
    requires |decoded| == 3
    requires decoded[0] == Success(Line(false, 10, kt)) && decoded[1] == Success(Line(false, 20, ku))
    requires decoded[2] == Success(Line(true, 30, kt))
    ensures Replay(decoded) == Success(Snapshot({ku}, 1, 2))
  {
    assert decoded[..0] == [];
    ReplayNext(decoded, 0, Snapshot({}, 0, 0));
    ReplayNext(decoded, 1, Snapshot({kt}, 0, 1));
    assert {kt} + {ku} == {kt, ku};
    ReplayNext(decoded, 2, Snapshot({kt, ku}, 0, 2));
    assert {kt, ku} - {kt} == {ku};
    assert decoded[..3] == decoded;
  }
}
