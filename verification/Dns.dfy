/** The DNS client's name encoding and its scan of a response (sections 3.1 and 4.1 of RFC 1035). */
module Dns {
  import opened Machine

  const DOT: byte := 46
  const TYPE_A: u16 := 1
  const CLASS_IN: u16 := 1
  const HEADER_SIZE: nat := 12
  const RECURSION_DESIRED: u16 := 0x100

  function Bytes16(v: u16): seq<byte> {
    [v / 0x100, v % 0x100]
  }

  function Number16(hi: byte, lo: byte): u16 {
    hi as int * 0x100 + lo as int
  }

  function Drop(s: seq<byte>, n: nat): (r: seq<byte>)
    ensures |r| == if n <= |s| then |s| - n else 0
  {
    if n <= |s| then s[n..] else []
  }

  // ----- names

  /** The length of the part before the first dot. */
  function UpToDot(name: seq<byte>): (n: nat)
    ensures n <= |name| && DOT !in name[..n] && (n < |name| ==> name[n] == DOT)
  {
    if name == [] || name[0] == DOT then 0 else 1 + UpToDot(name[1..])
  }

  /** The non-empty parts between dots. */
  function Labels(name: seq<byte>): seq<seq<byte>> {
    var n := UpToDot(name);
    var rest := if n < |name| then Labels(name[n + 1..]) else [];
    if n > 0 then [name[..n]] + rest else rest
  }

  /** A label as written: its length in one byte, then its bytes. */
  function Written(part: seq<byte>): seq<byte> {
    [|part| % 0x100] + part
  }

  function WrittenAll(labels: seq<seq<byte>>): seq<byte> {
    if labels == [] then [] else Written(labels[0]) + WrittenAll(labels[1..])
  }

  /** A whole name: the labels and the zero-length one at the end. */
  function EncodedName(labels: seq<seq<byte>>): seq<byte> {
    WrittenAll(labels) + [0]
  }

  function Joined(labels: seq<seq<byte>>): seq<byte> {
    if labels == [] then [] else if |labels| == 1 then labels[0] else labels[0] + [DOT] + Joined(labels[1..])
  }

  ghost predicate Plain(labels: seq<seq<byte>>) {
    forall i :: 0 <= i < |labels| ==> 0 < |labels[i]| < 0x100 && DOT !in labels[i]
  }

  lemma {:induction false} DotEnds(part: seq<byte>, rest: seq<byte>)
    requires DOT !in part && (rest == [] || rest[0] == DOT)
    ensures UpToDot(part + rest) == |part|
  {
    if part == [] {
      assert part + rest == rest;
    } else {
      DotEnds(part[1..], rest);
      assert (part + rest)[1..] == part[1..] + rest;
    }
  }

  lemma JoinedFirst(labels: seq<seq<byte>>)
    requires Plain(labels) && labels != []
    ensures var name, n := Joined(labels), |labels[0]|;
      && UpToDot(name) == n <= |name| && name[..n] == labels[0] && (n < |name| <==> |labels| > 1)
      && (|labels| > 1 ==> name[n + 1..] == Joined(labels[1..]))
  {
    hide UpToDot;
    if |labels| == 1 {
      DotEnds(labels[0], []);
      assert labels[0] + [] == labels[0];
    } else {
      DotEnds(labels[0], [DOT] + Joined(labels[1..]));
      assert Joined(labels) == labels[0] + ([DOT] + Joined(labels[1..]));
    }
  }

  /** The labels of a host name are the ones it is made of. */
  lemma {:induction false} LabelsOfJoined(labels: seq<seq<byte>>)
    requires Plain(labels)
    ensures Labels(Joined(labels)) == labels
  {
    if |labels| == 1 {
      JoinedFirst(labels);
      LastLabel(Joined(labels));
    } else if |labels| > 1 {
      JoinedFirst(labels);
      FirstLabel(Joined(labels));
      LabelsOfJoined(labels[1..]);
      hide Joined, UpToDot, Labels, Plain;
      assert labels == [labels[0]] + labels[1..];
    }
  }

  lemma {:induction false} LastLabel(name: seq<byte>)
    requires name != [] && UpToDot(name) == |name|
    ensures Labels(name) == [name]
  {
    hide UpToDot;
    assert name[..|name|] == name;
  }

  lemma {:induction false} FirstLabel(name: seq<byte>)
    requires 0 < UpToDot(name) < |name|
    ensures Labels(name) == [name[..UpToDot(name)]] + Labels(name[UpToDot(name) + 1..])
  {
    hide UpToDot;
  }

  lemma {:induction false} WrittenAllSplit(a: seq<seq<byte>>, b: seq<seq<byte>>)
    ensures WrittenAll(a + b) == WrittenAll(a) + WrittenAll(b)
  {
    if a == [] {
      assert a + b == b;
    } else {
      WrittenAllSplit(a[1..], b);
      hide Written;
      assert (a + b)[1..] == a[1..] + b;
      Associative(Written(a[0]), WrittenAll(a[1..]), WrittenAll(b));
    }
  }

  // ----- the request

  function RequestHeader(id: u16): seq<byte> {
    [id % 0x100, id / 0x100] + Bytes16(RECURSION_DESIRED) + Bytes16(1) + [0, 0, 0, 0, 0, 0]
  }

  /** The labels from `start` on; past the end there is none. */
  function Remaining(name: seq<byte>, start: nat): seq<seq<byte>> {
    if start <= |name| then Labels(name[start..]) else []
  }

  lemma {:induction false} NextLabel(name: seq<byte>, start: nat, end: nat)
    requires start <= end <= |name| && DOT !in name[start..end] && (end < |name| ==> name[end] == DOT)
    ensures Remaining(name, start) == (if end > start then [name[start..end]] else []) + Remaining(name, end + 1)
  {
    var s := name[start..];
    assert s == name[start..end] + name[end..];
    DotEnds(name[start..end], name[end..]);
    assert s[..end - start] == name[start..end];
    if end < |name| { assert s[end - start + 1..] == name[end + 1..]; }
  }

  /** Writes the request for a host name: its labels each with its length, dots left out. */
  method BuildRequest(id: u16, name: seq<byte>) returns (out: seq<byte>)
    ensures out == RequestHeader(id) + EncodedName(Labels(name)) + Bytes16(TYPE_A) + Bytes16(CLASS_IN)
  {
    hide Labels, WrittenAll, Remaining, RequestHeader, Bytes16;
    out := WriteHeader(id);
    ghost var header := out;
    ghost var done: seq<seq<byte>> := [];
    var start, end := 0, 0;
    Begin(name);
    while end < |name|
      invariant (start == 0 && end == 0) || start == end + 1
      invariant end <= |name|
      invariant done + Remaining(name, start) == Labels(name)
      invariant out == header + WrittenAll(done)
      decreases |name| + 1 - start
    {
      end := start;
      while end < |name| && name[end] != DOT
        invariant start <= end <= |name| && DOT !in name[start..end]
      {
        end := end + 1;
      }
      NextLabel(name, start, end);
      if end - start > 0 {
        var len: byte := (end - start) % 0x100;
        WrittenOne(done, name[start..end], header);
        out := out + [len];
        out := out + name[start..end];
        done := done + [name[start..end]];
      }
      start := end + 1;
    }
    Begin(name);
    assert done == Labels(name);
    out := out + [0];
    Associative(header, WrittenAll(done), [0]);
    out := out + Bytes16(TYPE_A);
    out := out + Bytes16(CLASS_IN);
  }

  lemma Begin(name: seq<byte>)
    ensures Remaining(name, 0) == Labels(name) && Remaining(name, |name| + 1) == [] && WrittenAll([]) == []
    ensures name == [] ==> Labels(name) == []
  {
    assert name[0..] == name;
  }

  lemma WrittenOne(done: seq<seq<byte>>, part: seq<byte>, header: seq<byte>)
    ensures header + WrittenAll(done + [part]) == header + WrittenAll(done) + [|part| % 0x100] + part
  {
    WrittenAllSplit(done, [part]);
    assert [part][1..] == [] && WrittenAll([part]) == Written(part);
    var len: seq<byte> := [|part| % 0x100];
    Associative(header, WrittenAll(done), len + part);
    Associative(header + WrittenAll(done), len, part);
  }

  method WriteHeader(id: u16) returns (out: seq<byte>)
    ensures out == RequestHeader(id)
  {
    out := [id % 0x100, id / 0x100];
    out := out + Bytes16(RECURSION_DESIRED);
    out := out + Bytes16(1);
    out := out + [0, 0];
    out := out + [0, 0];
    out := out + [0, 0];
  }

  // ----- the response, read off the front of the packet

  /** A 16-bit variable in memory, as its two bytes. */
  type Two = (byte, byte)

  /** What the variables declared for one answer happen to hold before they are read into. */
  datatype Stale = Stale(len: byte, rtype: Two, rclass: Two)

  /** A variable after a read of its size: bytes the packet does not have keep their value. */
  function Overlaid(v: Two, s: seq<byte>): Two {
    (if |s| > 0 then s[0] else v.0, if |s| > 1 then s[1] else v.1)
  }

  function OverlaidAddress(address: seq<byte>, s: seq<byte>): seq<byte>
    requires |address| == 4
  {
    if |s| >= 4 then s[..4] else s + address[|s|..]
  }

  /** The packet being read: every read takes bytes off its front, and finds none once it is used up. */
  class Packet {
    var rest: seq<byte>

    constructor (data: seq<byte>)
      ensures rest == data
    {
      rest := data;
    }

    /** Reads into a variable that keeps its value when there is nothing to read. */
    method ReadByte(before: byte) returns (b: byte)
      modifies this
      ensures b == (if old(rest) == [] then before else old(rest)[0]) && rest == Drop(old(rest), 1)
    {
      if rest == [] {
        return before;
      }
      b, rest := rest[0], rest[1..];
    }

    method ReadTwo(before: Two) returns (v: Two)
      modifies this
      ensures v == Overlaid(before, old(rest)) && rest == Drop(old(rest), 2)
    {
      v, rest := Overlaid(before, rest), Drop(rest, 2);
    }

    method SkipBytes(n: nat)
      modifies this
      ensures rest == Drop(old(rest), n)
    {
      var i := 0;
      while i < n
        invariant i <= n && rest == Drop(old(rest), i)
      {
        var b := ReadByte(0);
        i := i + 1;
      }
    }

    method Read(n: nat) returns (s: seq<byte>)
      requires n <= |rest|
      modifies this
      ensures s == old(rest)[..n] && rest == old(rest)[n..]
    {
      s, rest := rest[..n], rest[n..];
    }

    method Flush()
      modifies this
      ensures rest == []
    {
      rest := [];
    }

    /**
     Skips a question's name. The counter that runs down to skip a label is left at
     255, so only a length byte of zero ends the loop; `EndsExactly` says when it does.
     */
    method SkipQuestionName(stale: byte)
      requires AfterQuestionName(rest, stale).Some?
      modifies this
      ensures Some(rest) == AfterQuestionName(old(rest), stale)
    {
      var len, more := stale, true;
      while more
        invariant if more then AfterQuestionName(rest, len) == AfterQuestionName(old(rest), stale)
                  else Some(rest) == AfterQuestionName(old(rest), stale)
        decreases more, |rest|
      {
        len := ReadByte(len);
        if len > 0 {
          SkipBytes(len);
          len := 255;
        }
        more := len != 0;
      }
    }

    /**
     The same for an answer's name. A counter left at 255 reads as a pointer once the
     packet is used up, so this loop always ends.
     */
    method SkipAnswerName(stale: byte)
      modifies this
      ensures rest == AfterName(old(rest))
    {
      var len, more := stale, true;
      while more
        invariant if more then AfterName(rest) == AfterName(old(rest)) else rest == AfterName(old(rest))
        decreases more, |rest|, if len / 0x40 == 0 then 1 else 0
      {
        len := ReadByte(len);
        if len / 0x40 == 0 {
          if len > 0 {
            SkipBytes(len);
            len := 255;
          }
        } else {
          SkipBytes(1);
          len := 0;
        }
        more := len != 0;
      }
    }

    method SkipQuestions(n: u16, stale: nat -> byte)
      requires AfterQuestions(rest, 0, n, stale).Some?
      modifies this
      ensures Some(rest) == AfterQuestions(old(rest), 0, n, stale)
    {
      var i := 0;
      while i < n
        invariant i <= n && AfterQuestions(rest, i, n, stale) == AfterQuestions(old(rest), 0, n, stale)
      {
        SkipQuestionName(stale(i));
        SkipBytes(4);
        i := i + 1;
      }
    }

    /**
     Goes through the answers for the first one of type A and class IN. `size` is
     what the length variable, and `address` what the result, held before.
     */
    method ScanAnswers(n: u16, size: Two, address: seq<byte>, stale: nat -> Stale) returns (r: Outcome)
      requires |address| == 4
      modifies this
      ensures r == Answers(old(rest), 0, n, size, address, stale)
    {
      var i, length := 0, size;
      while i < n
        invariant i <= n
        invariant Answers(rest, i, n, length, address, stale) == Answers(old(rest), 0, n, size, address, stale)
      {
        SkipAnswerName(stale(i).len);
        var answerType := ReadTwo(stale(i).rtype);
        var answerClass := ReadTwo(stale(i).rclass);
        SkipBytes(4);
        length := ReadTwo(length);
        if Number(answerType) == TYPE_A && Number(answerClass) == CLASS_IN {
          if Number(length) != 4 {
            Flush();
            return WeirdSize;
          }
          return Success(OverlaidAddress(address, rest));
        }
        SkipBytes(Number(length));
        i := i + 1;
      }
      Flush();
      r := NoAddress;
    }

    method ProcessResponse(id: u16, fromServer: bool, address: seq<byte>, questionLen: nat -> byte, stale: nat -> Stale)
        returns (r: Outcome)
      requires |address| == 4 && Response(rest, id, fromServer, address, questionLen, stale).Some?
      modifies this
      ensures Some(r) == Response(old(rest), id, fromServer, address, questionLen, stale)
    {
      if !fromServer {
        return InvalidServer;
      }
      if |rest| < HEADER_SIZE {
        return Truncated;
      }
      var header := Read(HEADER_SIZE);
      var flags := Number16(header[2], header[3]);
      if Number16(header[1], header[0]) != id || flags / 0x8000 == 0 {
        Flush();
        return InvalidResponse;
      }
      if flags / 0x200 % 2 == 1 || flags % 0x10 != 0 {
        Flush();
        return ServerError;
      }
      if Number16(header[6], header[7]) == 0 {
        Flush();
        return NoAnswers;
      }
      SkipQuestions(Number16(header[4], header[5]), questionLen);
      r := ScanAnswers(Number16(header[6], header[7]), (header[3], header[2]), address, stale);
    }
  }

  datatype Outcome =
    | Success(address: seq<byte>)
    | InvalidServer | Truncated | InvalidResponse | ServerError | NoAnswers | WeirdSize | NoAddress

  /** The value of a variable holding bytes in network order. */
  function Number(v: Two): u16 {
    Number16(v.0, v.1)
  }

  /** What is left after a name's labels and the zero byte; none if the packet ends before they do. */
  function AfterLabels(s: seq<byte>): (r: Option<seq<byte>>)
    ensures r.Some? ==> |r.value| < |s|
    decreases |s|
  {
    if s == [] then None else if s[0] == 0 then Some(s[1..]) else AfterLabels(Drop(s[1..], s[0]))
  }

  /**
   What is left after a question's name, if its loop ends: on a packet used up it does
   if the counter happens to be zero.
   */
  function AfterQuestionName(s: seq<byte>, len: byte): Option<seq<byte>> {
    if s == [] && len == 0 then Some([]) else AfterLabels(s)
  }

  /** What is left after an answer's name. */
  function AfterName(s: seq<byte>): seq<byte>
    decreases |s|
  {
    if s == [] then []
    else if s[0] / 0x40 != 0 then Drop(s, 2)
    else if s[0] == 0 then s[1..]
    else AfterName(Drop(s[1..], s[0]))
  }

  function AfterQuestions(s: seq<byte>, i: nat, n: nat, stale: nat -> byte): Option<seq<byte>>
    decreases n - i
  {
    if i >= n then Some(s)
    else match AfterQuestionName(s, stale(i))
      case None => None
      case Some(t) => AfterQuestions(Drop(t, 4), i + 1, n, stale)
  }

  /**
   The outcome of the answers from the `i`th on, the variables holding `stale` where the
   packet has nothing for them.
   */
  function Answers(s: seq<byte>, i: nat, n: nat, size: Two, address: seq<byte>, stale: nat -> Stale): Outcome
    requires |address| == 4
    decreases n - i
  {
    if i >= n then NoAddress
    else
      var t := AfterName(s);
      var length := Overlaid(size, Drop(t, 8));
      if Number(Overlaid(stale(i).rtype, t)) == TYPE_A && Number(Overlaid(stale(i).rclass, Drop(t, 2))) == CLASS_IN then
        if Number(length) != 4 then WeirdSize else Success(OverlaidAddress(address, Drop(t, 10)))
      else Answers(Drop(Drop(t, 10), Number(length)), i + 1, n, length, address, stale)
  }

  /** The outcome for any packet; none if the skip of a question never ends. */
  function Response(d: seq<byte>, id: u16, fromServer: bool, address: seq<byte>,
                    questionLen: nat -> byte, stale: nat -> Stale)
      : Option<Outcome>
    requires |address| == 4
  {
    if !fromServer then Some(InvalidServer)
    else if |d| < HEADER_SIZE then Some(Truncated)
    else
      var flags := Number16(d[2], d[3]);
      if Number16(d[1], d[0]) != id || flags / 0x8000 == 0 then Some(InvalidResponse)
      else if flags / 0x200 % 2 == 1 || flags % 0x10 != 0 then Some(ServerError)
      else if Number16(d[6], d[7]) == 0 then Some(NoAnswers)
      else match AfterQuestions(d[HEADER_SIZE..], 0, Number16(d[4], d[5]), questionLen)
        case None => None
        case Some(s) => Some(Answers(s, 0, Number16(d[6], d[7]), (d[3], d[2]), address, stale))
  }

  // ----- what is refused

  /**
   The response begins with the request's identity, in the order the request wrote it,
   and is marked as a response.
   */
  predicate Answering(d: seq<byte>, id: u16)
    requires |d| >= HEADER_SIZE
  {
    d[..2] == [id % 0x100, id / 0x100] && d[2] >= 0x80
  }

  /** Cut short by the server, or with an error code. */
  predicate Failing(d: seq<byte>)
    requires |d| >= HEADER_SIZE
  {
    d[2] / 2 % 2 == 1 || d[3] % 0x10 != 0
  }

  /** Each refusal on the bytes of the header, in the order of the tests. */
  lemma RefusedExactly(d: seq<byte>, id: u16, fromServer: bool, address: seq<byte>,
                       questionLen: nat -> byte, stale: nat -> Stale)
    requires |address| == 4
    ensures var r := Response(d, id, fromServer, address, questionLen, stale);
      && (r == Some(InvalidServer) <==> !fromServer)
      && (r == Some(Truncated) <==> fromServer && |d| < 12)
      && (r == Some(InvalidResponse) <==> fromServer && |d| >= 12 && !Answering(d, id))
      && (r == Some(ServerError) <==> fromServer && |d| >= 12 && Answering(d, id) && Failing(d))
      && (r == Some(NoAnswers) <==>
            fromServer && |d| >= 12 && Answering(d, id) && !Failing(d) && d[6] == 0 && d[7] == 0)
  {
    if fromServer && |d| >= HEADER_SIZE {
      HeaderTests(d, id);
      var asked := AfterQuestions(d[HEADER_SIZE..], 0, Number16(d[4], d[5]), questionLen);
      if Answering(d, id) && !Failing(d) && asked.Some? {
        ScanOutcomes(asked.value, 0, Number16(d[6], d[7]), (d[3], d[2]), address, stale);
      }
    }
  }

  lemma HeaderTests(d: seq<byte>, id: u16)
    requires |d| >= HEADER_SIZE
    ensures var flags := Number16(d[2], d[3]);
      && (Answering(d, id) <==> Number16(d[1], d[0]) == id && flags / 0x8000 != 0)
      && (Failing(d) <==> flags / 0x200 % 2 == 1 || flags % 0x10 != 0)
      && (Number16(d[6], d[7]) == 0 <==> d[6] == 0 && d[7] == 0)
  {
    assert d[..2] == [d[0], d[1]];
    if Number16(d[1], d[0]) == id { assert id % 0x100 == d[0] && id / 0x100 == d[1]; }
  }

  /** The answers themselves give an address of four bytes, or say that it has another size, or that there is none. */
  lemma {:induction false} ScanOutcomes(s: seq<byte>, i: nat, n: nat, size: Two, address: seq<byte>,
                                        stale: nat -> Stale)
    requires |address| == 4
    ensures match Answers(s, i, n, size, address, stale)
      case Success(found) => |found| == 4
      case r => r == WeirdSize || r == NoAddress
    decreases n - i
  {
    if i < n {
      var t := AfterName(s);
      var length := Overlaid(size, Drop(t, 8));
      ScanOutcomes(Drop(Drop(t, 10), Number(length)), i + 1, n, length, address, stale);
    }
  }

  /** An address comes only out of a whole, unfailed response of the server to the request with this identity. */
  lemma AddressOnlyIf(d: seq<byte>, id: u16, fromServer: bool, address: seq<byte>,
                      questionLen: nat -> byte, stale: nat -> Stale)
    requires |address| == 4
    requires Response(d, id, fromServer, address, questionLen, stale).Some?
    requires Response(d, id, fromServer, address, questionLen, stale).value.Success?
    ensures fromServer && |d| >= 12 && Answering(d, id) && !Failing(d) && !(d[6] == 0 && d[7] == 0)
  {
    RefusedExactly(d, id, fromServer, address, questionLen, stale);
  }

  /**
   The request's fixed fields, as section 4.1 of RFC 1035 lays them out: one question,
   recursion desired, type A, class IN.
   */
  lemma RequestFields(id: u16, name: seq<byte>, out: seq<byte>)
    requires out == RequestHeader(id) + EncodedName(Labels(name)) + Bytes16(TYPE_A) + Bytes16(CLASS_IN)
    ensures |out| >= 17 && out[..2] == [id % 0x100, id / 0x100] && out[2..12] == [1, 0, 0, 1, 0, 0, 0, 0, 0, 0]
    ensures out[|out| - 4..] == [0, 1, 0, 1]
  {
    hide Labels, WrittenAll;
    assert |out| == 12 + |EncodedName(Labels(name))| + 4;
  }

  /** Behind the header the request has the labels of the host name, which are read back as far as type and class. */
  lemma RequestReadBack(id: u16, labels: seq<seq<byte>>, out: seq<byte>)
    requires Plain(labels)
    requires out == RequestHeader(id) + EncodedName(Labels(Joined(labels))) + Bytes16(TYPE_A) + Bytes16(CLASS_IN)
    ensures |out| >= 12 && out[12..] == EncodedName(labels) + [0, 1, 0, 1]
    ensures AfterLabels(out[12..]) == Some([0, 1, 0, 1])
  {
    LabelsOfJoined(labels);
    QuestionNameSkipped(labels, [0, 1, 0, 1]);
    hide EncodedName, Labels, Joined, AfterLabels;
    assert out == RequestHeader(id) + (EncodedName(labels) + [0, 1, 0, 1]);
  }

  /** A response that begins with the first two bytes of the request is not refused for its identity. */
  lemma IdentityKept(id: u16, name: seq<byte>, out: seq<byte>, d: seq<byte>, address: seq<byte>,
                     questionLen: nat -> byte, stale: nat -> Stale)
    requires out == RequestHeader(id) + EncodedName(Labels(name)) + Bytes16(TYPE_A) + Bytes16(CLASS_IN)
    requires |out| >= 2 && |d| >= 12 && d[..2] == out[..2] && d[2] >= 0x80 && |address| == 4
    ensures Response(d, id, true, address, questionLen, stale) != Some(InvalidResponse)
  {
    hide EncodedName, Response;
    RequestFields(id, name, out);
    RefusedExactly(d, id, true, address, questionLen, stale);
  }

  // ----- packets cut short

  /** One pass of the question loop: a length byte, if there is one, and its label. */
  function Pass(s: seq<byte>, len: byte): (seq<byte>, byte) {
    var b := if s == [] then len else s[0];
    if b == 0 then (Drop(s, 1), 0) else (Drop(Drop(s, 1), b), 255)
  }

  /** The length byte after `n` passes. */
  function LenAfter(s: seq<byte>, len: byte, n: nat): byte
    decreases n
  {
    if n == 0 then len else var (t, l) := Pass(s, len); if l == 0 then 0 else LenAfter(t, l, n - 1)
  }

  /** After one or more passes the length byte is zero. */
  ghost predicate Ends(s: seq<byte>, len: byte) {
    exists n: nat :: n > 0 && LenAfter(s, len, n) == 0
  }

  lemma PassedOn(s: seq<byte>, len: byte, n: nat)
    requires s != [] && s[0] != 0
    ensures LenAfter(s, len, n + 1) == LenAfter(Drop(s[1..], s[0]), 255, n)
  {
    assert Pass(s, len) == (Drop(s[1..], s[0]), 255);
  }

  lemma PassEnds(s: seq<byte>, len: byte)
    requires s != [] && s[0] != 0
    ensures Ends(s, len) <==> Ends(Drop(s[1..], s[0]), 255)
  {
    var t := Drop(s[1..], s[0]);
    if Ends(t, 255) {
      var n: nat :| n > 0 && LenAfter(t, 255, n) == 0;
      PassedOn(s, len, n);
      assert LenAfter(s, len, n + 1) == 0;
    }
    if Ends(s, len) {
      var n: nat :| n > 0 && LenAfter(s, len, n) == 0;
      PassedOn(s, len, n - 1);
      assert LenAfter(t, 255, n - 1) == 0;
    }
  }

  /**
   The question loop ends exactly if the name does, or if there is nothing left to
   read and the counter happens to be zero: on a packet cut short within the name
   every pass leaves the counter at 255.
   */
  lemma {:induction false} EndsExactly(s: seq<byte>, len: byte)
    ensures Ends(s, len) <==> AfterQuestionName(s, len).Some?
    decreases |s|
  {
    if s == [] {
      if len == 0 {
        assert LenAfter(s, len, 1) == 0;
      } else {
        forall n: nat ensures LenAfter(s, len, n) != 0 {
          NeverEnds(len, n);
        }
      }
    } else if s[0] == 0 {
      assert LenAfter(s, len, 1) == 0;
    } else {
      PassEnds(s, len);
      EndsExactly(Drop(s[1..], s[0]), 255);
    }
  }

  /**
   A response cut short within its question's first label: the outcome never comes,
   whatever the variables held before.
   */
  lemma CutShort(id: u16, size: byte, part: seq<byte>, address: seq<byte>,
                 questionLen: nat -> byte, stale: nat -> Stale)
    requires |part| < size as int && |address| == 4
    ensures var header := [id % 0x100, id / 0x100, 0x80, 0, 0, 1, 0, 1, 0, 0, 0, 0];
      Response(header + [size] + part, id, true, address, questionLen, stale) == None
  {
    var d := [id % 0x100, id / 0x100, 0x80, 0, 0, 1, 0, 1, 0, 0, 0, 0] + [size] + part;
    var s := d[HEADER_SIZE..];
    assert s == [size] + part && s[1..] == part && Drop(part, size) == [];
    assert AfterLabels(s) == AfterLabels([]) == None;
    assert AfterQuestions(s, 0, 1, questionLen) == None;
  }

  lemma {:induction false} NeverEnds(len: byte, n: nat)
    requires len != 0
    ensures LenAfter([], len, n) != 0
    decreases n
  {
    if n > 0 { NeverEnds(255, n - 1); }
  }

  /** One pass of the answer loop, which also takes any of the two upper bits for a pointer. */
  function AnswerPass(s: seq<byte>, len: byte): (seq<byte>, byte) {
    var b := if s == [] then len else s[0];
    if b / 0x40 != 0 then (Drop(Drop(s, 1), 1), 0)
    else if b == 0 then (Drop(s, 1), 0)
    else (Drop(Drop(s, 1), b), 255)
  }

  /** The packet and the length byte after `n` passes. */
  function AnswerPasses(s: seq<byte>, len: byte, n: nat): (seq<byte>, byte)
    decreases n
  {
    if n == 0 then (s, len) else var (t, l) := AnswerPass(s, len); if l == 0 then (t, 0) else AnswerPasses(t, l, n - 1)
  }

  /**
   The answer loop ends on every packet, after no more passes than two and the bytes
   there are, and leaves what follows the name.
   */
  lemma {:induction false} AnswerNameEnds(s: seq<byte>, len: byte) returns (n: nat)
    ensures 0 < n <= |s| + if len / 0x40 == 0 then 2 else 1
    ensures AnswerPasses(s, len, n) == (AfterName(s), 0)
    decreases |s|, if len / 0x40 == 0 then 1 else 0
  {
    var b := if s == [] then len else s[0];
    if b / 0x40 != 0 || b == 0 {
      n := 1;
      assert AnswerPasses(s, len, 1) == AnswerPass(s, len);
      assert Drop(Drop(s, 1), 1) == Drop(s, 2);
    } else {
      var m := AnswerNameEnds(Drop(Drop(s, 1), b), 255);
      n := m + 1;
    }
  }

  // ----- well-formed messages

  /** A name in an answer: labels, then the zero byte or a pointer to the rest of the name. */
  datatype Name = Name(labels: seq<seq<byte>>, pointer: Option<(byte, byte)>)

  datatype Record = Record(name: Name, rtype: u16, rclass: u16, ttl: seq<byte>, data: seq<byte>)

  datatype Question = Question(labels: seq<seq<byte>>, rtype: u16, rclass: u16)

  datatype Message = Message(
    id: u16, flags: u16, questions: seq<Question>, answers: seq<Record>, counts: seq<byte>, rest: seq<byte>)

  /** Labels of 1 to 63 bytes. */
  ghost predicate Labelled(labels: seq<seq<byte>>) {
    forall i :: 0 <= i < |labels| ==> 0 < |labels[i]| < 0x40
  }

  ghost predicate RecordOk(r: Record) {
    && Labelled(r.name.labels) && (r.name.pointer.Some? ==> r.name.pointer.value.0 >= 0xc0)
    && |r.ttl| == 4 && |r.data| < 0x1_0000
  }

  /** A response without compression in its questions; nothing is asked of what follows the answers. */
  ghost predicate MessageOk(m: Message) {
    && (forall i :: 0 <= i < |m.questions| ==> Labelled(m.questions[i].labels))
    && (forall i :: 0 <= i < |m.answers| ==> RecordOk(m.answers[i]))
    && |m.questions| < 0x1_0000 && |m.answers| < 0x1_0000 && |m.counts| == 4
  }

  function EncodeName(n: Name): seq<byte> {
    WrittenAll(n.labels) + match n.pointer case None => [0] case Some(p) => [p.0, p.1]
  }

  function EncodeRecord(r: Record): seq<byte> {
    EncodeName(r.name) + (Bytes16(r.rtype) + Bytes16(r.rclass) + r.ttl + Bytes16(|r.data| % 0x1_0000) + r.data)
  }

  function EncodeQuestion(q: Question): seq<byte> {
    EncodedName(q.labels) + (Bytes16(q.rtype) + Bytes16(q.rclass))
  }

  function EncodeQuestions(qs: seq<Question>): seq<byte> {
    if qs == [] then [] else EncodeQuestion(qs[0]) + EncodeQuestions(qs[1..])
  }

  function EncodeRecords(rs: seq<Record>): seq<byte> {
    if rs == [] then [] else EncodeRecord(rs[0]) + EncodeRecords(rs[1..])
  }

  function EncodeHeader(m: Message): seq<byte>
    requires |m.questions| < 0x1_0000 && |m.answers| < 0x1_0000
  {
    [m.id % 0x100, m.id / 0x100] + Bytes16(m.flags) + Bytes16(|m.questions|) + Bytes16(|m.answers|) + m.counts
  }

  ghost function EncodeMessage(m: Message): seq<byte>
    requires MessageOk(m)
  {
    EncodeHeader(m) + (EncodeQuestions(m.questions) + (EncodeRecords(m.answers) + m.rest))
  }

  // ----- the scan of well-formed messages

  /** One written label is skipped as a whole. */
  lemma LabelSkipped(part: seq<byte>, rest: seq<byte>)
    requires 0 < |part| < 0x100
    ensures AfterLabels(Written(part) + rest) == AfterLabels(rest)
    ensures |part| < 0x40 ==> AfterName(Written(part) + rest) == AfterName(rest)
  {
    var s := Written(part) + rest;
    assert s[1..] == part + rest && s[0] == |part|;
    assert Drop(s[1..], s[0]) == rest;
  }

  lemma {:induction false} LabelsSkipped(labels: seq<seq<byte>>, tail: seq<byte>)
    requires forall i :: 0 <= i < |labels| ==> 0 < |labels[i]| < 0x100
    ensures AfterLabels(WrittenAll(labels) + tail) == AfterLabels(tail)
    ensures Labelled(labels) ==> AfterName(WrittenAll(labels) + tail) == AfterName(tail)
  {
    hide AfterLabels, AfterName, Written;
    if labels == [] {
      assert WrittenAll(labels) + tail == tail;
    } else {
      LabelsSkipped(labels[1..], tail);
      LabelSkipped(labels[0], WrittenAll(labels[1..]) + tail);
      Associative(Written(labels[0]), WrittenAll(labels[1..]), tail);
    }
  }

  /** The skip of the question consumes exactly what was written for its name. */
  lemma QuestionNameSkipped(labels: seq<seq<byte>>, rest: seq<byte>)
    requires forall i :: 0 <= i < |labels| ==> 0 < |labels[i]| < 0x100
    ensures AfterLabels(EncodedName(labels) + rest) == Some(rest)
  {
    LabelsSkipped(labels, [0] + rest);
    assert ([0] + rest)[1..] == rest;
    hide WrittenAll;
    Associative(WrittenAll(labels), [0], rest);
  }

  /** For every host name the question in the reply is skipped exactly. */
  lemma RequestedNameSkipped(labels: seq<seq<byte>>, rest: seq<byte>)
    requires Plain(labels)
    ensures AfterLabels(EncodedName(Labels(Joined(labels))) + rest) == Some(rest)
  {
    LabelsOfJoined(labels);
    QuestionNameSkipped(labels, rest);
  }

  lemma AnswerNameSkipped(n: Name, rest: seq<byte>)
    requires Labelled(n.labels) && (n.pointer.Some? ==> n.pointer.value.0 >= 0xc0)
    ensures AfterName(EncodeName(n) + rest) == rest
  {
    var last := match n.pointer case None => [0] case Some(p) => [p.0, p.1];
    LabelsSkipped(n.labels, last + rest);
    assert (last + rest)[|last|..] == rest;
    hide WrittenAll;
    Associative(WrittenAll(n.labels), last, rest);
  }

  lemma {:induction false} QuestionsSkipped(qs: seq<Question>, rest: seq<byte>, i: nat, n: nat, stale: nat -> byte)
    requires i + |qs| == n && forall k :: 0 <= k < |qs| ==> Labelled(qs[k].labels)
    ensures AfterQuestions(EncodeQuestions(qs) + rest, i, n, stale) == Some(rest)
    decreases |qs|
  {
    hide EncodeQuestion;
    if qs == [] {
      assert EncodeQuestions(qs) + rest == rest;
    } else {
      QuestionSkipped(qs[0], EncodeQuestions(qs[1..]) + rest, i, n, stale);
      hide AfterQuestions;
      QuestionsSkipped(qs[1..], rest, i + 1, n, stale);
      Associative(EncodeQuestion(qs[0]), EncodeQuestions(qs[1..]), rest);
    }
  }

  lemma QuestionSkipped(q: Question, next: seq<byte>, i: nat, n: nat, stale: nat -> byte)
    requires Labelled(q.labels) && i < n
    ensures AfterQuestions(EncodeQuestion(q) + next, i, n, stale) == AfterQuestions(next, i + 1, n, stale)
  {
    var fixed := Bytes16(q.rtype) + Bytes16(q.rclass);
    QuestionNameSkipped(q.labels, fixed + next);
    assert Drop(fixed + next, 4) == next;
    hide EncodedName, Bytes16;
    Associative(EncodedName(q.labels), fixed, next);
  }

  /** The address of the first record of type A and class IN. */
  function FirstAddress(rs: seq<Record>): Outcome {
    if rs == [] then NoAddress
    else if rs[0].rtype == TYPE_A && rs[0].rclass == CLASS_IN then
      if |rs[0].data| == 4 then Success(rs[0].data) else WeirdSize
    else FirstAddress(rs[1..])
  }

  function Fields(r: Record): (s: seq<byte>)
    requires RecordOk(r)
    ensures |s| == 10
  {
    Bytes16(r.rtype) + Bytes16(r.rclass) + r.ttl + Bytes16(|r.data| % 0x1_0000)
  }

  /** The fields behind a record's name are read from the packet, whatever the variables held before. */
  lemma FieldsRead(r: Record, tail: seq<byte>, size: Two, stale: Stale)
    requires RecordOk(r)
    ensures var t := Fields(r) + tail;
      && Number(Overlaid(stale.rtype, t)) == r.rtype && Number(Overlaid(stale.rclass, Drop(t, 2))) == r.rclass
      && Number(Overlaid(size, Drop(t, 8))) == |r.data| && Drop(t, 10) == tail
  {
    var s := Fields(r);
    var t := s + tail;
    assert s[0..2] == Bytes16(r.rtype) && s[2..4] == Bytes16(r.rclass) && s[8..10] == Bytes16(|r.data|);
    hide Fields;
    assert Overlaid(stale.rtype, t) == (s[0], s[1]);
    assert Overlaid(stale.rclass, Drop(t, 2)) == (s[2], s[3]);
    assert Overlaid(size, Drop(t, 8)) == (s[8], s[9]);
    Digits16(s[0], s[1], r.rtype, s[0..2]);
    Digits16(s[2], s[3], r.rclass, s[2..4]);
    Digits16(s[8], s[9], |r.data|, s[8..10]);
  }

  lemma Digits16(hi: byte, lo: byte, v: u16, s: seq<byte>)
    requires s == [hi, lo] == Bytes16(v)
    ensures Number16(hi, lo) == v
  {
    assert hi == Bytes16(v)[0] && lo == Bytes16(v)[1];
  }

  /** One record is either the answer or passed over as a whole. */
  lemma RecordScanned(r: Record, next: seq<byte>, i: nat, n: nat, size: Two, address: seq<byte>, stale: nat -> Stale)
      returns (size': Two)
    requires RecordOk(r) && i < n && |address| == 4
    ensures Answers(EncodeRecord(r) + next, i, n, size, address, stale) ==
      if r.rtype == TYPE_A && r.rclass == CLASS_IN then if |r.data| == 4 then Success(r.data) else WeirdSize
      else Answers(next, i + 1, n, size', address, stale)
  {
    hide EncodeName, Number, Overlaid, Bytes16, AfterName;
    var fixed := Fields(r) + r.data;
    var t := fixed + next;
    size' := Overlaid(size, Drop(t, 8));
    AnswerNameSkipped(r.name, t);
    Associative(EncodeName(r.name), fixed, next);
    hide Fields;
    Associative(Fields(r), r.data, next);
    FieldsRead(r, r.data + next, size, stale(i));
    assert |r.data| == 4 ==> OverlaidAddress(address, r.data + next) == r.data;
    assert Drop(r.data + next, |r.data|) == next;
  }

  /** Whatever labels or pointers precede it, and whatever was in memory, the scan finds the first address record. */
  lemma {:induction false} FirstAddressFound(
      rs: seq<Record>, rest: seq<byte>, i: nat, n: nat, size: Two, address: seq<byte>, stale: nat -> Stale)
    requires i + |rs| == n && |address| == 4 && forall k :: 0 <= k < |rs| ==> RecordOk(rs[k])
    ensures Answers(EncodeRecords(rs) + rest, i, n, size, address, stale) == FirstAddress(rs)
    decreases |rs|
  {
    if rs == [] {
      assert EncodeRecords(rs) + rest == rest;
    } else {
      hide Answers, EncodeRecord;
      var size' := RecordScanned(rs[0], EncodeRecords(rs[1..]) + rest, i, n, size, address, stale);
      Associative(EncodeRecord(rs[0]), EncodeRecords(rs[1..]), rest);
      FirstAddressFound(rs[1..], rest, i + 1, n, size', address, stale);
    }
  }

  /** A well-formed response to the request: its first address record decides, whatever was in memory. */
  lemma ResponseDecoded(m: Message, address: seq<byte>, questionLen: nat -> byte, stale: nat -> Stale)
    requires MessageOk(m) && m.answers != [] && |address| == 4
    requires m.flags / 0x8000 == 1 && m.flags / 0x200 % 2 == 0 && m.flags % 0x10 == 0
    ensures Response(EncodeMessage(m), m.id, true, address, questionLen, stale) == Some(FirstAddress(m.answers))
  {
    hide EncodeQuestions, EncodeRecords, Answers, AfterQuestions, FirstAddress;
    var d, body := EncodeMessage(m), EncodeQuestions(m.questions) + (EncodeRecords(m.answers) + m.rest);
    HeaderRead(m, body);
    QuestionsSkipped(m.questions, EncodeRecords(m.answers) + m.rest, 0, |m.questions|, questionLen);
    FirstAddressFound(m.answers, m.rest, 0, |m.answers|, (d[3], d[2]), address, stale);
  }

  lemma HeaderRead(m: Message, body: seq<byte>)
    requires MessageOk(m)
    ensures var d := EncodeHeader(m) + body;
      && |d| >= HEADER_SIZE && Number16(d[1], d[0]) == m.id && Number16(d[2], d[3]) == m.flags
      && Number16(d[4], d[5]) == |m.questions| && Number16(d[6], d[7]) == |m.answers| && d[HEADER_SIZE..] == body
  {
  }
}
