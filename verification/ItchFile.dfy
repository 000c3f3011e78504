/** Length-prefixed ITCH files: framing, and the parser object that decodes, counts and batches. */
module ItchFile {
  import opened Bytes
  import opened ItchCodec
  import opened ItchRoundTrip
  import opened Sequences

  // ----- framing -----

  /** The payloads of all complete frames at the front of `d`; reading stops at the first frame that
      is cut short. */
  function Frames(d: seq<Byte>): seq<seq<Byte>>
    decreases |d|
  {
    if |d| < 2 then []
    else
      var n := FromBE(d[..2]);
      if |d| - 2 < n then [] else [d[2..2 + n]] + Frames(d[2 + n..])
  }

  function Frame(p: seq<Byte>): seq<Byte> {
    ToBE(|p|, 2) + p
  }

  function FrameAll(ps: seq<seq<Byte>>): seq<Byte> {
    if ps == [] then [] else Frame(ps[0]) + FrameAll(ps[1..])
  }

  predicate Frameable(ps: seq<seq<Byte>>) {
    forall i :: 0 <= i < |ps| ==> |ps[i]| < 65536
  }

  lemma FrameLength(p: seq<Byte>, rest: seq<Byte>)
    requires |p| < 65536
    ensures var d := Frame(p) + rest;
            |d| >= 2 && FromBE(d[..2]) == |p| && d[2..2 + |p|] == p && d[2 + |p|..] == rest
  {
    assert Pow256(2) == 65536;
    FromToBE(|p|, 2);
    assert (Frame(p) + rest)[..2] == ToBE(|p|, 2);
  }

  /** Reading back the frames of a file whose tail holds no complete frame. */
  lemma {:induction false} FramesInvertFrameAll(ps: seq<seq<Byte>>, tail: seq<Byte>)
    requires Frameable(ps) && Frames(tail) == []
    ensures Frames(FrameAll(ps) + tail) == ps
  {
    if ps == [] {
      assert FrameAll(ps) + tail == tail;
    } else {
      assert FrameAll(ps) + tail == Frame(ps[0]) + (FrameAll(ps[1..]) + tail);
      FrameLength(ps[0], FrameAll(ps[1..]) + tail);
      FramesInvertFrameAll(ps[1..], tail);
    }
  }

  /** A frame cut anywhere before its end holds no complete frame. */
  lemma CutFrameIsNoFrame(p: seq<Byte>, k: nat)
    requires |p| < 65536 && k < |Frame(p)|
    ensures Frames(Frame(p)[..k]) == []
  {
    FrameLength(p, []);
    assert Frame(p) + [] == Frame(p);
    if k >= 2 {
      assert Frame(p)[..k][..2] == Frame(p)[..2];
    }
  }

  /** Truncating any file leaves a prefix of its frames. */
  lemma {:induction false} TruncationKeepsPrefix(d: seq<Byte>, k: nat)
    requires k <= |d|
    ensures Frames(d[..k]) <= Frames(d)
    decreases |d|
  {
    if |d| >= 2 && k >= 2 {
      var n := FromBE(d[..2]);
      assert d[..k][..2] == d[..2];
      if k - 2 >= n {
        var rest := d[2 + n..];
        assert d[..k][2 + n..] == rest[..k - 2 - n];
        assert d[..k][2..2 + n] == d[2..2 + n];
        TruncationKeepsPrefix(rest, k - 2 - n);
        assert Frames(d) == [d[2..2 + n]] + Frames(rest);
        assert Frames(d[..k]) == [d[2..2 + n]] + Frames(rest[..k - 2 - n]);
      }
    }
  }

  // ----- decoding a file -----

  function RecordOf(p: seq<Byte>): seq<Record> {
    if p == [] then []
    else
      match Decode(p)
      case None => []
      case Some(r) => [r]
  }

  /** The records of the payloads that decode, in order. */
  function RecordsOf(ps: seq<seq<Byte>>): seq<Record> {
    if ps == [] then [] else RecordsOf(ps[..|ps| - 1]) + RecordOf(ps[|ps| - 1])
  }

  function Raws(rs: seq<Record>): (ps: seq<seq<Byte>>)
    ensures |ps| == |rs|
  {
    seq(|rs|, i requires 0 <= i < |rs| => rs[i].raw)
  }

  function Recorded(ps: seq<seq<Byte>>): seq<seq<Byte>> {
    if ps == [] then [] else (if IsRecorded(ps[0]) then [ps[0]] else []) + Recorded(ps[1..])
  }

  lemma {:induction false} RecordedSnoc(ps: seq<seq<Byte>>, p: seq<Byte>)
    ensures Recorded(ps + [p]) == Recorded(ps) + (if IsRecorded(p) then [p] else [])
  {
    if ps == [] {
      assert ps + [p] == [p];
    } else {
      assert (ps + [p])[1..] == ps[1..] + [p];
      RecordedSnoc(ps[1..], p);
    }
  }

  /** Conservation over a file: the records hold exactly the payloads that are recorded, unchanged and
      in order, those of unknown types included. */
  lemma {:induction false} RecordsConservePayloads(ps: seq<seq<Byte>>)
    ensures Raws(RecordsOf(ps)) == Recorded(ps)
  {
    hide IsRecorded, Decode;
    if ps != [] {
      var n := |ps| - 1;
      RecordsConservePayloads(ps[..n]);
      RecordedSnoc(ps[..n], ps[n]);
      assert ps == ps[..n] + [ps[n]];
      OneRecorded(ps[n]);
      assert Raws(RecordsOf(ps)) == Raws(RecordsOf(ps[..n])) + Raws(RecordOf(ps[n]));
    }
  }

  lemma OneRecorded(p: seq<Byte>)
    ensures Raws(RecordOf(p)) == if IsRecorded(p) then [p] else []
  {
    hide Decode;
    if p != [] {
      RecordedIff(p);
    }
  }

  datatype Message = Message(fields: Fields, tracking: nat, filler: seq<Byte>)

  predicate WellFormedMessage(m: Message) {
    WellFormed(m.fields) && Fits(m.tracking, 2) && |m.filler| == 13
  }

  predicate WellFormedMessages(ms: seq<Message>) {
    forall i :: 0 <= i < |ms| ==> WellFormedMessage(ms[i])
  }

  function Payloads(ms: seq<Message>): (ps: seq<seq<Byte>>)
    requires WellFormedMessages(ms)
    ensures |ps| == |ms|
  {
    seq(|ms|, i requires 0 <= i < |ms| => Encode(ms[i].fields, ms[i].tracking, ms[i].filler))
  }

  lemma PayloadsAreFrameable(ms: seq<Message>)
    requires WellFormedMessages(ms)
    ensures Frameable(Payloads(ms))
  {
    forall i | 0 <= i < |ms| ensures |Payloads(ms)[i]| < 65536 {
      EncodedType(ms[i].fields, ms[i].tracking, ms[i].filler);
    }
  }

  lemma {:induction false} PayloadsDecode(ms: seq<Message>)
    requires WellFormedMessages(ms)
    ensures var rs := RecordsOf(Payloads(ms));
            && |rs| == |ms|
            && forall i :: 0 <= i < |ms| ==> rs[i] == Record(ms[i].fields, Payloads(ms)[i])
  {
    hide Decode, Encode;
    if ms != [] {
      var n := |ms| - 1;
      PayloadsDecode(ms[..n]);
      assert Payloads(ms)[..n] == Payloads(ms[..n]);
      EncodedType(ms[n].fields, ms[n].tracking, ms[n].filler);
      DecodeInvertsEncode(ms[n].fields, ms[n].tracking, ms[n].filler);
      assert RecordOf(Payloads(ms)[n]) == [Record(ms[n].fields, Payloads(ms)[n])];
    }
  }

  /** File round trip: encoding, framing and concatenating any list of well-formed messages, with a
      last frame cut short anywhere, and then framing and decoding again returns exactly the fields
      and payloads of the complete messages, in order. */
  lemma FileRoundTrip(ms: seq<Message>, last: seq<Byte>, k: nat)
    requires WellFormedMessages(ms) && |last| < 65536 && k < |Frame(last)|
    ensures var rs := RecordsOf(Frames(FrameAll(Payloads(ms)) + Frame(last)[..k]));
            && |rs| == |ms|
            && forall i :: 0 <= i < |ms| ==> rs[i] == Record(ms[i].fields, Payloads(ms)[i])
  {
    hide RecordsOf, Frames, Payloads, Frame;
    PayloadsAreFrameable(ms);
    CutFrameIsNoFrame(last, k);
    FramesInvertFrameAll(Payloads(ms), Frame(last)[..k]);
    PayloadsDecode(ms);
  }

  lemma {:induction false} RecordsOfPrefix(ps: seq<seq<Byte>>, qs: seq<seq<Byte>>)
    requires ps <= qs
    ensures RecordsOf(ps) <= RecordsOf(qs)
    decreases |qs|
  {
    if |ps| < |qs| {
      RecordsOfPrefix(ps, qs[..|qs| - 1]);
    } else {
      assert ps == qs;
    }
  }

  /** Cutting any file short never changes or reorders the records before the cut. */
  lemma TruncationKeepsRecords(d: seq<Byte>, k: nat)
    requires k <= |d|
    ensures RecordsOf(Frames(d[..k])) <= RecordsOf(Frames(d))
  {
    TruncationKeepsPrefix(d, k);
    RecordsOfPrefix(Frames(d[..k]), Frames(d));
  }

  // ----- how far a parse gets -----

  /** `if max_messages and count >= max_messages`: absent and 0 both mean no limit. */
  predicate LimitReached(max: Option<int>, count: nat) {
    max.Some? && max.value != 0 && count >= max.value
  }

  /** The loop processes exactly the first `count` frames: it stops at the end of the file, at the
      limit, or by an exception at an empty payload. */
  ghost predicate StopsAt(frames: seq<seq<Byte>>, max: Option<int>, count: nat) {
    && count <= |frames|
    && (forall j :: 0 <= j < count ==> !LimitReached(max, j) && frames[j] != [])
    && (count < |frames| ==> LimitReached(max, count) || frames[count] == [])
  }

  lemma StopsAtUnique(frames: seq<seq<Byte>>, max: Option<int>, a: nat, b: nat)
    requires StopsAt(frames, max, a) && StopsAt(frames, max, b)
    ensures a == b
  {
  }

  /** Without empty frames exactly as many are processed as the limit says, or all of them if there are
      fewer or there is no limit, which 0 also means; a negative limit stops at once. */
  lemma LimitIsExact(frames: seq<seq<Byte>>, max: Option<int>, count: nat)
    requires forall j :: 0 <= j < |frames| ==> frames[j] != []
    ensures StopsAt(frames, max, count) <==>
              count == (if max.None? || max.value == 0 then |frames|
                        else if max.value < 0 then 0
                        else if max.value < |frames| then max.value
                        else |frames|)
  {
    var stop := if max.None? || max.value == 0 then |frames|
                else if max.value < 0 then 0
                else if max.value < |frames| then max.value
                else |frames|;
    assert StopsAt(frames, max, stop);
    if StopsAt(frames, max, count) {
      StopsAtUnique(frames, max, count, stop);
    }
  }

  /** The file holds an empty frame, and the limit lets the loop get to it. */
  ghost predicate Crashes(frames: seq<seq<Byte>>, max: Option<int>) {
    exists j: nat :: j < |frames| && frames[j] == [] && forall i: nat :: i <= j ==> !LimitReached(max, i)
  }

  lemma CrashesIff(frames: seq<seq<Byte>>, max: Option<int>, count: nat)
    requires StopsAt(frames, max, count)
    ensures Crashes(frames, max) <==> count < |frames| && !LimitReached(max, count)
  {
    if count < |frames| && !LimitReached(max, count) {
      assert frames[count] == [] && forall i: nat :: i <= count ==> !LimitReached(max, i);
    }
  }

  function TypeCount(ps: seq<seq<Byte>>, t: Byte): nat {
    if ps == [] then 0
    else
      var last := ps[|ps| - 1];
      TypeCount(ps[..|ps| - 1], t) + (if last != [] && last[0] == t then 1 else 0)
  }

  lemma NextFrame(frames: seq<seq<Byte>>, count: nat, t: Byte)
    requires count < |frames| && frames[count] != []
    ensures RecordsOf(frames[..count + 1]) == RecordsOf(frames[..count]) + RecordOf(frames[count])
    ensures TypeCount(frames[..count + 1], t)
         == TypeCount(frames[..count], t) + (if frames[count][0] == t then 1 else 0)
  {
    hide RecordOf;
    assert frames[..count + 1][..count] == frames[..count];
  }

  /** `f.read(2)` and `f.read(length)`: the next payload, or None at the end or a cut frame. */
  method ReadFrame(rest: seq<Byte>) returns (payload: Option<seq<Byte>>, rest': seq<Byte>)
    ensures payload.None? ==> Frames(rest) == []
    ensures payload.Some? ==> Frames(rest) == [payload.value] + Frames(rest') && |rest'| < |rest|
  {
    if |rest| < 2 {
      return None, rest;
    }
    var length := FromBE(rest[..2]);
    if |rest| - 2 < length {
      return None, rest;
    }
    return Some(rest[2..2 + length]), rest[2 + length..];
  }

  // ----- the parser object -----

  const BATCH_SIZE: nat := 10000

  /** Every batch is non-empty and at most the batch size. */
  ghost predicate GoodBatches(batches: seq<seq<Record>>) {
    forall i :: 0 <= i < |batches| ==> 1 <= |batches[i]| <= 10000
  }

  /** `now` counts everything `before` does, and the processed payloads `ps` besides. */
  ghost predicate CountsUp(before: map<Byte, nat>, now: map<Byte, nat>, ps: seq<seq<Byte>>) {
    && (forall t :: CountOf(now, t) == CountOf(before, t) + TypeCount(ps, t))
    && SumValues(now) == SumValues(before) + |ps|
  }

  lemma CountsUpNext(before: map<Byte, nat>, now: map<Byte, nat>, frames: seq<seq<Byte>>, count: nat)
    requires count < |frames| && frames[count] != []
    requires CountsUp(before, now, frames[..count])
    ensures var t := frames[count][0];
            CountsUp(before, now[t := CountOf(now, t) + 1], frames[..count + 1])
  {
    var t := frames[count][0];
    SumValuesIncrement(now, t);
    forall u ensures CountOf(now[t := CountOf(now, t) + 1], u) == CountOf(before, u) + TypeCount(frames[..count + 1], u) {
      NextFrame(frames, count, u);
    }
  }

  class ItchParser {
    var batch: seq<Record>
    var total: nat
    var byType: map<Byte, nat>
    var store: seq<seq<Record>>  // the batches handed to the database, in order

    ghost predicate Valid()
      reads this
    {
      |batch| < BATCH_SIZE && GoodBatches(store)
    }

    /** All records accepted so far: stored, then pending. */
    ghost function Contents(): seq<Record>
      reads this
    {
      Flatten(store) + batch
    }

    constructor ()
      ensures Valid() && batch == [] && store == [] && total == 0 && byType == map[]
    {
      batch, total, byType, store := [], 0, map[], [];
    }

    method FlushBatch()
      requires |batch| <= BATCH_SIZE && GoodBatches(store)
      modifies this`batch, this`store
      ensures Valid() && batch == [] && Contents() == old(Contents())
    {
      if batch == [] {
        return;
      }
      FlattenSnoc(store, batch);
      store := store + [batch];
      batch := [];
    }

    /** One iteration behind the framing: count the type, decode, batch. */
    method Accept(payload: seq<Byte>)
      requires Valid() && payload != []
      modifies this`batch, this`store, this`byType
      ensures Valid() && Contents() == old(Contents()) + RecordOf(payload)
      ensures |batch| == (|old(batch)| + |RecordOf(payload)|) % 10000
      ensures byType == old(byType)[payload[0] := CountOf(old(byType), payload[0]) + 1]
    {
      byType := byType[payload[0] := CountOf(byType, payload[0]) + 1];
      var record := Decode(payload);
      if record.Some? {
        batch := batch + [record.value];
      }
      assert Contents() == old(Contents()) + RecordOf(payload);
      if |batch| >= BATCH_SIZE {
        FlushBatch();
      }
    }

    /** The state after `count` frames of a parse that began with the contents `before`, `pending`
        records in the batch and the type counts `types`. */
    ghost predicate Progress(frames: seq<seq<Byte>>, before: seq<Record>, pending: nat, types: map<Byte, nat>, count: nat)
      reads this
    {
      && count <= |frames|
      && Contents() == before + RecordsOf(frames[..count])
      && |batch| == (pending + |RecordsOf(frames[..count])|) % 10000
      && CountsUp(types, byType, frames[..count])
    }

    method AcceptNext(
        payload: seq<Byte>,
        ghost frames: seq<seq<Byte>>, ghost before: seq<Record>, ghost pending: nat, ghost types: map<Byte, nat>,
        ghost count: nat)
      requires Valid() && payload != []
      requires Progress(frames, before, pending, types, count) && count < |frames| && frames[count] == payload
      modifies this`batch, this`store, this`byType
      ensures Valid() && Progress(frames, before, pending, types, count + 1)
    {
      hide RecordsOf, RecordOf, CountsUp, Flatten;
      NextFrame(frames, count, payload[0]);
      CountsUpNext(types, byType, frames, count);
      Accept(payload);
      assert before + RecordsOf(frames[..count]) + RecordOf(frames[count])
          == before + (RecordsOf(frames[..count]) + RecordOf(frames[count]));
    }

    /** The parse loop. Nothing is lost, duplicated or reordered: what was stored or pending before,
        followed by the records of the processed frames, is now stored or pending. An empty frame
        within the limit raises an exception, which nothing catches; then, and only then, the records
        behind the last full batch stay pending. The type counts grow by one a processed message, but
        `total` is overwritten: they agree exactly when no earlier parse had counted anything. */
    method ParseFile(data: seq<Byte>, max: Option<int>) returns (count: nat, crashed: bool)
      requires Valid()
      modifies this
      ensures Valid() && StopsAt(Frames(data), max, count)
      ensures crashed <==> Crashes(Frames(data), max)
      ensures Contents() == old(Contents()) + RecordsOf(Frames(data)[..count])
      ensures |batch| == if crashed then (|old(batch)| + |RecordsOf(Frames(data)[..count])|) % 10000 else 0
      ensures CountsUp(old(byType), byType, Frames(data)[..count])
      ensures total == if count > 0 then count else old(total)
      ensures count > 0 ==> (SumValues(byType) == total <==> SumValues(old(byType)) == 0)
    {
      hide Frames, RecordsOf, RecordOf, CountsUp, Flatten, SumValues, TypeCount, Crashes;
      var rest := data;
      count := 0;
      crashed := false;
      ghost var frames, before, pending, types := Frames(data), Contents(), |batch|, byType;
      NothingProcessed(byType, frames);
      assert before + [] == before && Progress(frames, before, pending, types, 0);
      hide Progress;
      while true
        invariant Valid() && count <= |frames| && !crashed
        invariant frames[count..] == Frames(rest)
        invariant forall j :: 0 <= j < count ==> !LimitReached(max, j) && frames[j] != []
        invariant Progress(frames, before, pending, types, count)
        invariant total == if count > 0 then count else old(total)
        decreases |rest|
      {
        if LimitReached(max, count) {
          break;
        }
        var payload, rest' := ReadFrame(rest);
        if payload.None? {
          break;
        }
        assert frames[count] == frames[count..][0] == payload.value;
        assert frames[count + 1..] == frames[count..][1..] == Frames(rest');
        rest := rest';
        if payload.value == [] {
          crashed := true;
          break;
        }
        AcceptNext(payload.value, frames, before, pending, types, count);
        count := count + 1;
        total := count;
      }
      CrashesIff(frames, max, count);
      Finish(crashed, frames, before, pending, types, count);
    }

    /** The final flush, unless an exception has left the loop. */
    method Finish(
        crashed: bool, ghost frames: seq<seq<Byte>>, ghost before: seq<Record>, ghost pending: nat,
        ghost types: map<Byte, nat>, ghost count: nat)
      requires Valid() && Progress(frames, before, pending, types, count)
      modifies this`batch, this`store
      ensures Valid() && Contents() == before + RecordsOf(frames[..count])
      ensures |batch| == if crashed then (pending + |RecordsOf(frames[..count])|) % 10000 else 0
      ensures CountsUp(types, byType, frames[..count]) && SumValues(byType) == SumValues(types) + count
    {
      SumOfCounts(types, byType, frames[..count]);
      if !crashed {
        FlushBatch();
      }
    }
  }

  // ----- what goes wrong, on files that show it -----

  lemma FramesOfTwo(p: seq<Byte>, q: seq<Byte>)
    requires |p| < 65536 && |q| < 65536
    ensures Frames(Frame(p) + Frame(q)) == [p, q]
  {
    assert Frames([]) == [];
    assert FrameAll([p, q]) == Frame(p) + FrameAll([q]);
    assert FrameAll([q]) == Frame(q) + FrameAll([]);
    assert FrameAll([p, q]) + [] == Frame(p) + Frame(q);
    FramesInvertFrameAll([p, q], []);
  }

  /** Any message followed by an empty frame: the record of the message is parsed and never stored. */
  method RecordStaysUnflushed(m: Message) returns (data: seq<Byte>, parser: ItchParser)
    requires WellFormedMessage(m)
    ensures Crashes(Frames(data), None)
    ensures fresh(parser) && parser.store == [] && |parser.batch| == 1 && parser.batch[0].fields == m.fields
  {
    hide Frames, Frame, Encode, Decode, RecordsOf, Flatten, Crashes;
    var p := Encode(m.fields, m.tracking, m.filler);
    data := Frame(p) + Frame([]);
    EncodedType(m.fields, m.tracking, m.filler);
    PayloadsDecode([m]);
    FramesOfTwo(p, []);
    ghost var frames := Frames(data);
    assert frames[..1] == [p] == Payloads([m]);
    CrashesIff(frames, None, 1);
    parser := new ItchParser();
    NothingStored(parser.store);
    var count, crashed := parser.ParseFile(data, None);
    StopsAtUnique(frames, None, count, 1);
    SingleContents(parser.store, parser.batch, RecordsOf([p])[0]);
  }

  lemma NothingStored(store: seq<seq<Record>>)
    requires store == []
    ensures Flatten(store) + [] == []
  {
  }

  lemma SingleContents(store: seq<seq<Record>>, batch: seq<Record>, r: Record)
    requires Flatten(store) + batch == [r] && |batch| == 1 && GoodBatches(store)
    ensures store == [] && batch == [r]
  {
    assert |Flatten(store)| == 0;
    assert batch == (Flatten(store) + batch)[|Flatten(store)|..];
  }

  /** The file of one message, parsed twice by one parser: the type counts say 2, the total 1. */
  method CountsDisagree(m: Message) returns (data: seq<Byte>, parser: ItchParser)
    requires WellFormedMessage(m)
    ensures !Crashes(Frames(data), None)
    ensures fresh(parser) && SumValues(parser.byType) == 2 && parser.total == 1
  {
    hide Frames, Frame, FrameAll, Encode, Decode, SumValues;
    data := Frame(Encode(m.fields, m.tracking, m.filler));
    OneFrame(m);
    EncodedType(m.fields, m.tracking, m.filler);
    ghost var frames := Frames(data);
    assert StopsAt(frames, None, 1);
    CrashesIff(frames, None, 1);
    parser := new ItchParser();
    NothingSummed();
    var count, crashed := parser.ParseFile(data, None);
    StopsAtUnique(frames, None, count, 1);
    SumOfCounts(map[], parser.byType, frames[..1]);
    ghost var byType := parser.byType;
    count, crashed := parser.ParseFile(data, None);
    StopsAtUnique(frames, None, count, 1);
    SumOfCounts(byType, parser.byType, frames[..1]);
  }

  lemma OneFrame(m: Message)
    requires WellFormedMessage(m)
    ensures var p := Encode(m.fields, m.tracking, m.filler); |p| < 65536 && Frames(Frame(p)) == [p]
  {
    hide Encode;
    var p := Encode(m.fields, m.tracking, m.filler);
    EncodedType(m.fields, m.tracking, m.filler);
    assert Frames([]) == [];
    assert FrameAll([p]) == Frame(p) + FrameAll([]);
    assert FrameAll([p]) + [] == Frame(p);
    FramesInvertFrameAll([p], []);
  }

  lemma NothingSummed()
    ensures SumValues<Byte>(map[]) == 0
  {
  }


  lemma NothingProcessed(m: map<Byte, nat>, frames: seq<seq<Byte>>)
    ensures CountsUp(m, m, frames[..0]) && RecordsOf(frames[..0]) == []
  {
  }

  lemma SumOfCounts(before: map<Byte, nat>, now: map<Byte, nat>, ps: seq<seq<Byte>>)
    requires CountsUp(before, now, ps)
    ensures SumValues(now) == SumValues(before) + |ps|
  {
  }
}
