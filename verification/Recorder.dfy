/** The browser recorder's module state (packages/browser/src/index.ts), both capture modes, as one
    object. `sent` is every batch handed to the transport, oldest first. */
module Recorder {
  import opened Prelude
  import opened Rrweb
  import R = RollingBuffer
  import S = Streaming
  import opened Store

  const FLUSH_MAX_BYTES := 500_000
  const BUFFER_MS := 120_000

  datatype Config = Config(buffered: bool, identifier: Option<string>, serviceName: Option<string>, service: Option<string>,
                           environment: Option<string>, batSessionId: Option<string>, bufferMs: Option<int>,
                           flushMaxBytes: Option<int>, captureMetadata: bool, captureOnError: bool)
  {
    function BufferMs(): int { if bufferMs.Some? then bufferMs.value else BUFFER_MS }
    function FlushMax(): int { if flushMaxBytes.Some? then flushMaxBytes.value else FLUSH_MAX_BYTES }
  }

  /** What a batch says about its origin; the recorder knows neither the user's name and address nor
      the start page. */
  function InfoOf(config: Config, sessionId: string, trigger: string): Info {
    Info(OrElse(config.batSessionId, ""), OrElse(config.identifier, sessionId), "", "", "",
         OrElse(config.environment, "production"), OrElse(config.serviceName, OrElse(config.service, "web")), trigger)
  }

  function OrElse(value: Option<string>, fallback: string): string {
    if value.Some? then value.value else fallback
  }

  /** The same, field by field. */
  ghost predicate OriginOf(info: Info, config: Config, sessionId: string, trigger: string) {
    && info.trigger == trigger
    && (config.identifier.Some? ==> info.identifier == config.identifier.value)
    && (config.identifier.None? ==> info.identifier == sessionId)
    && (config.serviceName.Some? ==> info.serviceName == config.serviceName.value)
    && (config.serviceName.None? && config.service.Some? ==> info.serviceName == config.service.value)
    && (config.serviceName.None? && config.service.None? ==> info.serviceName == "web")
    && (config.environment.Some? ==> info.environment == config.environment.value)
    && (config.environment.None? ==> info.environment == "production")
    && (config.batSessionId.Some? ==> info.batSessionId == config.batSessionId.value)
    && (config.batSessionId.None? ==> info.batSessionId == "")
    && info.userEmail == "" && info.userName == "" && info.startUrl == ""
  }

  /** The configured limits, two minutes and five hundred thousand bytes where none is given. */
  lemma {:induction false} LimitsAre(config: Config)
    ensures config.bufferMs.Some? ==> config.BufferMs() == config.bufferMs.value
    ensures config.bufferMs.None? ==> config.BufferMs() == 2 * 60 * 1000
    ensures config.flushMaxBytes.Some? ==> config.FlushMax() == config.flushMaxBytes.value
    ensures config.flushMaxBytes.None? ==> config.FlushMax() == 500 * 1000
  {
  }

  /** How many batches earlier recordings had sent, and what happened in this one. */
  datatype History = History(base: nat, log: seq<R.Emission>, ops: seq<S.Op>)

  function EventsOf(batches: seq<Request>): (r: seq<seq<RawEvent>>)
    ensures |r| == |batches|
    ensures forall i :: 0 <= i < |r| ==> r[i] == batches[i].events
  {
    seq(|batches|, i requires 0 <= i < |batches| => batches[i].events)
  }

  /** What both modes keep: one session and token per recording, and the device metadata on the
      first batch of the recording and on no other. */
  ghost predicate OneSession(batches: seq<Request>, id: string, token: string, meta: Option<Meta>) {
    forall i :: 0 <= i < |batches| ==>
                  && batches[i].sid == id
                  && batches[i].token == token
                  && batches[i].client == if i == 0 then meta else None
  }

  /** The buffers are what the whole history of the mode makes them; the other mode's stay empty. */
  ghost predicate Agrees(size: seq<RawEvent> -> nat, config: Config, segments: R.Segments, uploads: seq<seq<RawEvent>>,
                         buffer: seq<RawEvent>, firstSnapshot: bool, log: seq<R.Emission>, ops: seq<S.Op>)
  {
    if config.buffered then buffer == [] && segments == R.Buffered(config.BufferMs(), log)
    else segments == [] && S.Stream(uploads, buffer, firstSnapshot) == S.Run(size, config.FlushMax(), ops)
  }

  /** One more batch was sent from the stream, with these events. */
  ghost predicate SentOne(before: seq<Request>, after: seq<Request>, events: seq<RawEvent>) {
    && |after| == |before| + 1 && after[..|before|] == before
    && after[|before|].events == events && after[|before|].info.trigger == "stream"
  }

  lemma AgreesAtStart(size: seq<RawEvent> -> nat, config: Config)
    ensures Agrees(size, config, [], [], [], true, [], [])
  {
  }

  lemma {:induction false} AgreesFlushed(size: seq<RawEvent> -> nat, config: Config, segments: R.Segments, uploads: seq<seq<RawEvent>>,
                                         buffer: seq<RawEvent>, firstSnapshot: bool, log: seq<R.Emission>, ops: seq<S.Op>)
    requires !config.buffered && Agrees(size, config, segments, uploads, buffer, firstSnapshot, log, ops)
    ensures Agrees(size, config, segments, if buffer == [] then uploads else uploads + [buffer], [], firstSnapshot, log, ops + [S.Flush])
  {
    assert (ops + [S.Flush])[..|ops|] == ops;
  }

  class Recorder {
    /** The length of the JSON text of a buffer, in bytes. */
    const size: seq<RawEvent> -> nat
    var initialized: bool
    var config: Option<Config>
    var sessionId: Option<string>
    var shareToken: Option<string>
    var clientMeta: Option<Meta>
    var clientMetaSent: bool
    var buffer: seq<RawEvent>
    var firstSnapshot: bool
    var segments: R.Segments
    var sent: seq<Request>
    ghost var past: History

    /** The batches of the current recording. */
    ghost function Mine(): seq<Request>
      reads this`sent, this`past
      requires past.base <= |sent|
    {
      sent[past.base..]
    }

    ghost predicate SameSession()
      reads this`sent, this`past, this`sessionId, this`shareToken, this`clientMeta, this`clientMetaSent
      requires past.base <= |sent|
    {
      && sessionId.Some? && sessionId.value != "" && shareToken.Some?
      && clientMetaSent == (clientMeta.Some? && Mine() != [])
      && OneSession(Mine(), sessionId.value, shareToken.value, clientMeta)
    }

    /** The recorder agrees with the whole history of its mode. */
    ghost predicate Valid()
      reads this
    {
      && past.base <= |sent|
      && initialized == config.Some?
      && (config.None? ==> sessionId.None? && buffer == [] && segments == [])
      && (config.Some? ==> SameSession())
      && (config.Some? ==> Agrees(size, config.value, segments, EventsOf(Mine()), buffer, firstSnapshot, past.log, past.ops))
    }

    constructor (size: seq<RawEvent> -> nat)
      ensures Valid() && !initialized && sent == [] && this.size == size
    {
      this.size := size;
      initialized, config, sessionId, shareToken := false, None, None, None;
      clientMeta, clientMetaSent, buffer, firstSnapshot, segments, sent := None, false, [], true, [], [];
      past := History(0, [], []);
    }

    /** `id` and `token` are the session handle, `meta` what the browser reports about itself. */
    method Init(config: Config, id: string, token: string, meta: Meta)
      requires Valid() && id != ""
      modifies this
      ensures Valid() && sent == old(sent)
      ensures old(initialized) ==> unchanged(this)
      ensures !old(initialized) ==>
                && this.config == Some(config) && sessionId == Some(id) && shareToken == Some(token)
                && clientMeta == (if config.captureMetadata then Some(meta) else None)
                && past.base == |sent| && past.log == [] && past.ops == []
    {
      if !initialized {
        Begin(config, id, token, if config.captureMetadata then Some(meta) else None);
      }
    }

    method Begin(config: Config, id: string, token: string, meta: Option<Meta>)
      requires !initialized && buffer == [] && segments == [] && id != ""
      modifies this
      ensures Valid() && sent == old(sent)
      ensures this.config == Some(config) && sessionId == Some(id) && shareToken == Some(token)
      ensures clientMeta == meta && past.base == |sent| && past.log == [] && past.ops == []
    {
      initialized := true;
      this.config := Some(config);
      sessionId, shareToken := Some(id), Some(token);
      clientMeta, clientMetaSent := meta, false;
      firstSnapshot := true;
      past := History(|sent|, [], []);
      assert EventsOf(Mine()) == [];
      AgreesAtStart(size, config);
    }

    /** Hands one batch to the transport. */
    method Upload(events: seq<RawEvent>, trigger: string)
      requires past.base <= |sent| && config.Some? && SameSession()
      modifies this`sent, this`clientMetaSent
      ensures past.base <= |sent| && SameSession()
      ensures |sent| == |old(sent)| + 1 && sent[..|sent| - 1] == old(sent)
      ensures sent[|sent| - 1].events == events
      ensures OriginOf(sent[|sent| - 1].info, config.value, sessionId.value, trigger)
      ensures EventsOf(Mine()) == EventsOf(old(Mine())) + [events]
    {
      var client := if clientMeta.Some? && !clientMetaSent then clientMeta else None;
      var info := InfoOf(config.value, sessionId.value, trigger);
      var batch := Request(sessionId.value, info, shareToken.value, client, events);
      ghost var before := Mine();
      sent := sent + [batch];
      assert Mine() == before + [batch];
      if client.Some? {
        clientMetaSent := true;
      }
    }

    /** Empties the buffer into one batch. */
    method SendBuffer()
      requires past.base <= |sent| && config.Some? && SameSession()
      modifies this`sent, this`clientMetaSent, this`buffer
      ensures past.base <= |sent| && SameSession() && buffer == []
      ensures SentOne(old(sent), sent, old(buffer))
      ensures EventsOf(Mine()) == EventsOf(old(Mine())) + [old(buffer)]
    {
      var events := buffer;
      buffer := [];
      Upload(events, "stream");
    }

    /** The size, timer, page-hide, report and stop flushes of always mode, all forced. */
    method Flush()
      requires Valid()
      modifies this`sent, this`clientMetaSent, this`buffer, this`past
      ensures Valid()
      ensures past == if config.Some? && !config.value.buffered then old(past).(ops := old(past).ops + [S.Flush]) else old(past)
      ensures old(buffer) == [] ==> sent == old(sent) && buffer == []
      ensures old(buffer) != [] ==>
                SentOne(old(sent), sent, old(buffer)) && buffer == []
    {
      if config.None? {
        return;
      }
      if !config.value.buffered {
        AgreesFlushed(size, config.value, segments, EventsOf(Mine()), buffer, firstSnapshot, past.log, past.ops);
        past := past.(ops := past.ops + [S.Flush]);
      }
      if buffer == [] {
        return;
      }
      SendBuffer();
    }

    /** The first full snapshot is sent at once, alone. Any other event is buffered; the buffer is sent,
        as one batch, exactly when it has reached the flush threshold. */
    method EmitAlways(e: RawEvent)
      requires Valid() && config.Some? && !config.value.buffered
      modifies this`sent, this`clientMetaSent, this`buffer, this`past, this`firstSnapshot
      ensures Valid() && past == old(past).(ops := old(past).ops + [S.Emit(e)])
      ensures
        var first := e.kind == FULL_SNAPSHOT && old(firstSnapshot);
        var grown := old(buffer) + [e];
        && firstSnapshot == (old(firstSnapshot) && !first)
        && (first ==> buffer == old(buffer) && SentOne(old(sent), sent, [e]))
        && (!first && size(grown) < config.value.FlushMax() ==> buffer == grown && sent == old(sent))
        && (!first && config.value.FlushMax() <= size(grown) ==> buffer == [] && SentOne(old(sent), sent, grown))
    {
      past := past.(ops := past.ops + [S.Emit(e)]);
      assert past.ops[..|past.ops| - 1] == old(past.ops);
      if e.kind == FULL_SNAPSHOT && firstSnapshot {
        firstSnapshot := false;
        Upload([e], "stream");
        return;
      }
      buffer := buffer + [e];
      if config.value.FlushMax() <= size(buffer) {
        SendBuffer();
      }
    }

    /** Drops leading segments while the next one starts at or before the cutoff. */
    method PruneSegments(cutoff: int)
      modifies this`segments
      ensures segments == R.Prune(old(segments), cutoff)
    {
      while 1 < |segments|
        invariant R.Prune(segments, cutoff) == R.Prune(old(segments), cutoff)
        decreases |segments|
      {
        var next := segments[1];
        if next != [] && next[0].timestamp <= cutoff {
          segments := segments[1..];
        } else {
          break;
        }
      }
    }

    method EmitBuffered(e: RawEvent, checkout: bool, now: int)
      requires Valid() && config.Some? && config.value.buffered
      modifies this`segments, this`past
      ensures Valid() && past == old(past).(log := old(past).log + [R.Emission(e, checkout, now)])
      ensures checkout || old(segments) == [] ==> segments == R.Prune(old(segments) + [[e]], now - config.value.BufferMs())
      ensures !checkout && old(segments) != [] ==>
                var last := |old(segments)| - 1;
                segments == old(segments)[..last] + [old(segments)[last] + [e]]
    {
      past := past.(log := past.log + [R.Emission(e, checkout, now)]);
      assert past.log[..|past.log| - 1] == old(past.log);
      if checkout || segments == [] {
        segments := segments + [[e]];
        PruneSegments(now - config.value.BufferMs());
      } else {
        segments := segments[..|segments| - 1] + [segments[|segments| - 1] + [e]];
      }
    }

    /** Uploads the whole rolling buffer and keeps it. */
    method UploadBuffer(trigger: string)
      requires Valid() && (config.Some? ==> config.value.buffered)
      modifies this`sent, this`clientMetaSent
      ensures Valid()
      ensures Flatten(segments) == [] ==> sent == old(sent)
      ensures Flatten(segments) != [] ==>
                && |sent| == |old(sent)| + 1 && sent[..|sent| - 1] == old(sent)
                && sent[|sent| - 1].events == Flatten(segments) && sent[|sent| - 1].info.trigger == trigger
    {
      if config.None? {
        return;
      }
      var events := Flatten(segments);
      if events == [] {
        return;
      }
      Upload(events, trigger);
    }

    /** In buffered mode a report sends the rolling buffer of the whole log; in always mode it is a
        flush. */
    method Report()
      requires Valid()
      modifies this`sent, this`clientMetaSent, this`buffer, this`past
      ensures Valid()
      ensures config.Some? && config.value.buffered ==>
                var rolling := Flatten(R.Buffered(config.value.BufferMs(), past.log));
                if rolling == [] then sent == old(sent)
                else
                  && |sent| == |old(sent)| + 1 && sent[..|sent| - 1] == old(sent)
                  && sent[|sent| - 1].events == rolling && sent[|sent| - 1].info.trigger == "manual"
      ensures past == if config.Some? && !config.value.buffered then old(past).(ops := old(past).ops + [S.Flush]) else old(past)
      ensures config.Some? && !config.value.buffered ==> buffer == []
    {
      if config.None? || config.value.buffered {
        UploadBuffer("manual");
      } else {
        Flush();
      }
    }

    method OnError()
      requires Valid() && (config.Some? ==> config.value.buffered)
      modifies this`sent, this`clientMetaSent
      ensures Valid()
      ensures if config.None? || !config.value.captureOnError || Flatten(segments) == [] then sent == old(sent)
              else
                && |sent| == |old(sent)| + 1 && sent[..|sent| - 1] == old(sent)
                && sent[|sent| - 1].events == Flatten(segments) && sent[|sent| - 1].info.trigger == "error"
    {
      if config.Some? && config.value.captureOnError {
        UploadBuffer("error");
      }
    }

    method Identify(identifier: string)
      requires Valid()
      modifies this`config
      ensures Valid()
      ensures config == if old(config).Some? then Some(old(config).value.(identifier := Some(identifier))) else None
    {
      if config.Some? {
        config := Some(config.value.(identifier := Some(identifier)));
      }
    }

    /** Ends the recording. In always mode everything emitted since `init` has then been handed to
        the transport, in the order of the log but for the first full snapshot. */
    method Stop()
      requires Valid()
      modifies this
      ensures Valid() && !initialized && config.None?
      ensures old(config).Some? && !old(config).value.buffered ==>
                && old(sent) <= sent && old(past.base) <= |sent|
                && var cut := S.SnapshotCut(size, old(config).value.FlushMax(), old(past.ops));
                   && cut <= S.FirstSnapshot(S.Emitted(old(past.ops)))
                   && Flatten(EventsOf(sent[old(past.base)..])) == S.Arranged(S.Emitted(old(past.ops)), cut)
      ensures old(config).None? || old(config).value.buffered ==> sent == old(sent)
    {
      if config.Some? && !config.value.buffered {
        ghost var limit := config.value.FlushMax();
        S.StopHandsOverEverything(size, limit, past.ops);
        Flush();
        assert EventsOf(Mine()) == S.Run(size, limit, past.ops).uploads;
      }
      initialized, config, sessionId, shareToken := false, None, None, None;
      buffer, segments, clientMeta, clientMetaSent := [], [], None, false;
    }
  }
}
