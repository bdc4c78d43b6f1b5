/** The older hub client of package `main` (nexa.go): event frames carry
    one of three literal kind prefixes, and a consumer turns the stream of
    frames into a stream of messages, skipping the ones that do not
    decode. Its REST calls refuse any status but 200 before decoding,
    which is `NexaTypes.CheckStatus`. */
module NexaMain {
  import opened Results
  import opened GoStrings
  import opened NexaTypes
  import opened Channels

  /** The prefixes the switch in ParseMessage knows, in the order it
      tries them. */
  const KindPrefixes: seq<string> := ["temperature:", "humidity:", "nodeManager:"]

  /** The frame starts with one of the known kind prefixes. */
  predicate HasKind(frame: string) {
    exists p :: p in KindPrefixes && HasPrefix(frame, p)
  }

  /** No frame starts with two different known prefixes. */
  lemma KindsExclusive(frame: string)
    ensures forall p, q :: p in KindPrefixes && q in KindPrefixes && HasPrefix(frame, p) && HasPrefix(frame, q) ==> p == q
  {
    forall p, q | p in KindPrefixes && q in KindPrefixes && HasPrefix(frame, p) && HasPrefix(frame, q)
      ensures p == q
    {
      assert frame[..|p|][0] == frame[0] == frame[..|q|][0];
    }
  }

  /** The kind prefix the frame starts with; the known prefixes begin with
      different characters, so there is at most one. */
  function KindOf(frame: string): (p: string)
    requires HasKind(frame)
    ensures p in KindPrefixes && HasPrefix(frame, p)
    ensures forall q :: q in KindPrefixes && HasPrefix(frame, q) ==> q == p
  {
    KindsExclusive(frame);
    if HasPrefix(frame, "temperature:") then "temperature:"
    else if HasPrefix(frame, "humidity:") then "humidity:"
    else "nodeManager:"
  }

  /** The prefix switch: a known kind prefix is removed once; anything
      else reaches the decoder as it came. */
  function StripKind(frame: string): (r: string)
    ensures HasKind(frame) ==> frame == KindOf(frame) + r
    ensures !HasKind(frame) ==> r == frame
  {
    if HasPrefix(frame, "temperature:") then TrimPrefix(frame, "temperature:")
    else if HasPrefix(frame, "humidity:") then TrimPrefix(frame, "humidity:")
    else if HasPrefix(frame, "nodeManager:") then TrimPrefix(frame, "nodeManager:")
    else frame
  }

  /** At most one prefix goes: a repeated prefix is stripped only once. */
  lemma StripKindOnce(p: string, rest: string)
    requires p in KindPrefixes
    ensures StripKind(p + rest) == rest
    ensures StripKind(p + p + rest) == p + rest
  {
    var f := p + rest;
    assert HasPrefix(f, p) by { assert f[..|p|] == p; }
    var g := p + p + rest;
    assert g == p + (p + rest);
    assert HasPrefix(g, p) by { assert g[..|p|] == p; }
  }

  /** ParseMessage: the frame without its kind prefix, decoded. */
  function ParseMessage(decode: MessageDecoder, frame: string): (r: Result<Message, string>)
    ensures HasKind(frame) ==> r == decode(frame[|KindOf(frame)|..])
    ensures !HasKind(frame) ==> r == decode(frame)
  {
    decode(StripKind(frame))
  }

  /** A bare kind prefix leaves nothing to decode, which is an error. */
  lemma BarePrefixFails(decode: MessageDecoder, p: string)
    requires p in KindPrefixes
    ensures ParseMessage(decode, p).Err?
  {
    StripKindOnce(p, "");
    assert p + "" == p;
  }

  /** The messages the consumer emits for a list of frames: the ones that
      decode, in order. */
  function ParsedAll(decode: MessageDecoder, frames: seq<string>): seq<Message>
    decreases |frames|
  {
    if |frames| == 0 then []
    else
      var n := |frames| - 1;
      var m := ParseMessage(decode, frames[n]);
      ParsedAll(decode, frames[..n]) + (if m.Ok? then [m.value] else [])
  }

  /** Consuming two runs of frames one after the other emits the messages
      of the first, then those of the second: a frame's result does not
      depend on the frames around it. */
  lemma {:induction false} ParsedAllAppend(decode: MessageDecoder, a: seq<string>, b: seq<string>)
    ensures ParsedAll(decode, a + b) == ParsedAll(decode, a) + ParsedAll(decode, b)
    decreases |b|
  {
    if |b| > 0 {
      var n := |b| - 1;
      ParsedAllAppend(decode, a, b[..n]);
      assert (a + b)[..|a + b| - 1] == a + b[..n];
      assert (a + b)[|a + b| - 1] == b[n];
    } else {
      assert a + b == a;
    }
  }

  /** A frame that does not decode is skipped and later frames are still
      consumed. */
  lemma SkipsFailures(decode: MessageDecoder, a: seq<string>, bad: string, b: seq<string>)
    requires ParseMessage(decode, bad).Err?
    ensures ParsedAll(decode, a + [bad] + b) == ParsedAll(decode, a) + ParsedAll(decode, b)
  {
    var head := a + [bad];
    assert a + [bad] + b == head + b;
    ParsedAllAppend(decode, head, b);
    DropsFailure(decode, a, bad);
  }

  lemma DropsFailure(decode: MessageDecoder, a: seq<string>, bad: string)
    requires ParseMessage(decode, bad).Err?
    ensures ParsedAll(decode, a + [bad]) == ParsedAll(decode, a)
  {
    var head := a + [bad];
    assert head[..|head| - 1] == a;
    assert head[|head| - 1] == bad;
  }

  /** The positions of the frames that parse. */
  function ParsedPositions(decode: MessageDecoder, frames: seq<string>): set<nat> {
    set k: nat | k < |frames| && ParseMessage(decode, frames[k]).Ok?
  }

  /** The last frame adds its position exactly when it parses. */
  lemma PositionsSnoc(decode: MessageDecoder, frames: seq<string>)
    requires |frames| > 0
    ensures var n := |frames| - 1;
      var before := ParsedPositions(decode, frames[..n]);
      && n !in before
      && ParsedPositions(decode, frames) ==
         before + (if ParseMessage(decode, frames[n]).Ok? then {n} else {})
  {
    var n := |frames| - 1;
    var init := frames[..n];
    forall k: nat | k < n ensures init[k] == frames[k] {
    }
  }

  /** As many messages as frames that decode: so no more messages than
      frames, and exactly as many when all decode. */
  lemma {:induction false} ParsedAllCount(decode: MessageDecoder, frames: seq<string>)
    ensures |ParsedAll(decode, frames)| == |ParsedPositions(decode, frames)|
    ensures |ParsedAll(decode, frames)| <= |frames|
    ensures (forall k :: 0 <= k < |frames| ==> ParseMessage(decode, frames[k]).Ok?) ==>
      |ParsedAll(decode, frames)| == |frames|
    decreases |frames|
  {
    CountsParsed(decode, frames);
    if |frames| > 0 {
      var n := |frames| - 1;
      var init := frames[..n];
      var m := ParseMessage(decode, frames[n]);
      ParsedAllCount(decode, init);
      assert ParsedAll(decode, frames) == ParsedAll(decode, init) + (if m.Ok? then [m.value] else []);
      if forall k :: 0 <= k < |frames| ==> ParseMessage(decode, frames[k]).Ok? {
        assert forall k :: 0 <= k < n ==> init[k] == frames[k];
        assert m.Ok?;
      }
    }
  }

  lemma {:induction false} CountsParsed(decode: MessageDecoder, frames: seq<string>)
    ensures |ParsedAll(decode, frames)| == |ParsedPositions(decode, frames)|
    decreases |frames|
  {
    if |frames| > 0 {
      CountsParsed(decode, frames[..|frames| - 1]);
      CountFrame(decode, frames);
    } else {
      assert ParsedPositions(decode, frames) == {};
    }
  }

  lemma CountFrame(decode: MessageDecoder, frames: seq<string>)
    requires |frames| > 0
    requires var init := frames[..|frames| - 1];
      |ParsedAll(decode, init)| == |ParsedPositions(decode, init)|
    ensures |ParsedAll(decode, frames)| == |ParsedPositions(decode, frames)|
  {
    var n := |frames| - 1;
    var init := frames[..n];
    var m := ParseMessage(decode, frames[n]);
    PositionsSnoc(decode, frames);
    CountStep(ParsedAll(decode, init), if m.Ok? then [m.value] else [], ParsedPositions(decode, init), n, m.Ok?);
  }

  lemma CountStep(msgs: seq<Message>, extra: seq<Message>, positions: set<nat>, n: nat, ok: bool)
    requires |msgs| == |positions| && n !in positions
    requires if ok then |extra| == 1 else extra == []
    ensures |msgs + extra| == |positions + (if ok then {n} else {})|
  {
  }

  /** The consumer's step: one more frame read from the front adds that
      frame's message, if it decodes. */
  lemma ConsumeStep(decode: MessageDecoder, frames: seq<string>, k: nat)
    requires k < |frames|
    ensures var m := ParseMessage(decode, frames[k]);
      ParsedAll(decode, frames[..k + 1]) == ParsedAll(decode, frames[..k]) + (if m.Ok? then [m.value] else [])
    ensures frames[k..][1..] == frames[k + 1..]
  {
    assert frames[..k + 1][..k] == frames[..k];
  }

  /** MessageConsumer: reads frames until the input is closed and drained,
      sends every message that decodes, in order, and then closes the
      output. A range over a channel that is never closed does not end,
      so the input is taken as closed. */
  method MessageConsumer(decode: MessageDecoder, input: Channel<string>, output: Channel<Message>)
    requires input.closed && !output.closed
    modifies input, output
    ensures input.items == [] && input.closed
    ensures output.items == old(output.items) + ParsedAll(decode, old(input.items))
    ensures output.closed
  {
    ghost var frames := input.items;
    assert input as object != output as object;
    var done := false;
    while !done
      invariant input as object != output as object
      invariant input.closed && !output.closed
      invariant |input.items| <= |frames|
      invariant input.items == frames[|frames| - |input.items|..]
      invariant output.items == old(output.items) + ParsedAll(decode, frames[..|frames| - |input.items|])
      invariant done ==> input.items == []
      decreases |input.items|, !done
    {
      ghost var before := |frames| - |input.items|;
      var frame := input.Receive();
      match frame {
        case None =>
          done := true;
        case Some(f) =>
          ConsumeStep(decode, frames, before);
          assert f == frames[before] && |frames| - |input.items| == before + 1;
          ghost var sent := output.items;
          var m := ParseMessage(decode, f);
          if m.Ok? {
            output.Send(m.value);
          }
          assert output.items == sent + (if m.Ok? then [m.value] else []);
      }
    }
    assert frames[..|frames|] == frames;
    output.Close();
  }
}
