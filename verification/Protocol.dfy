/** Which status lines do_request sends over a whole request, for every client and every service. */
module Protocol {
  import opened ChunkCodec
  import opened ClientBody
  import Preview
  import ResponseSender

  datatype Code = EC_100 | EC_200 | EC_204 | EC_206 | EC_400 | EC_403 | EC_404 | EC_405 | EC_407 | EC_408 | EC_500 | EC_501 | EC_503 | UNSET

  /** What a handler of a service returns. */
  datatype Answer = CONTINUE | DONE | ALLOW204 | ALLOW206 | FAILURE

  /** A handler: absent, or what it answers and whether it unlocks the data. */
  datatype Handler = Absent | Handler(answer: Answer, unlocks: bool)

  /** How the exchange of bodies went, if there was one: whether a response was started in it, whether all the
      data of the client arrived, and what became of them. */
  datatype Run = NotRun | Ran(started: bool, ok: bool, client: Client)

  /** What send_remaining_response did, if it was called: what had gone out in the end, and whether the service
      stalled. */
  datatype Sending = NotSent | Sending(bytes: string, stalled: bool)

  /** The bytes are a whole response to the output of the service. */
  ghost predicate IsResponse(plan: ResponseSender.Plan, output: string, bytes: string)
  {
    exists blocks: seq<string> ::
      GoodBlocks(blocks) && bytes == plan.Full(blocks) && (plan.hasBody ==> Concat(blocks) == output)
  }

  /** The bytes are the beginning of one to a beginning of the output. */
  ghost predicate IsPartial(plan: ResponseSender.Plan, output: string, bytes: string)
  {
    exists blocks: seq<string> :: bytes <= plan.Full(blocks) && Concat(blocks) <= output
  }

  datatype Method = OPTIONS | MODIFY | UNKNOWN

  datatype Access = Allowed | Denied | Unauthenticated

  /** Everything outside do_request: the client's request, the configuration and the service. */
  datatype World = World(
    parsed: Code, readAny: bool, serviceUp: bool, access: Access, encapsOk: bool, kind: Method,
    preview: bool, hasBody: bool, allow204: bool, allow206: bool,
    start: Decoder, stream: string, arrivals: seq<Arrival>, announced: nat, held: nat,
    checkPreview: Handler, endOfData: Handler,
    plan: ResponseSender.Plan, output: string, client: Client, waits: seq<ResponseSender.Wait>,
    writes: bool, hasIo: bool, steady: bool, greedy: bool, as200: bool, fake204: bool)
  {
    /** A request that is refused is not refused with a success. */
    predicate Wf()
    {
      parsed != EC_200 && parsed != EC_204 && parsed != EC_206 && parsed != UNSET && start.Wf() && plan.Wf()
      && client.Wf() && client.held == [] && !client.eof
    }

    /** How the preview is read. */
    function PreviewRead(): (r: Status)
      ensures r == OK || r == EOF || r == ERROR
    {
      if start.Wf() then Preview.PreviewRead(start, stream, arrivals, Preview.Capacity(held, announced + 64)) else ERROR
    }

    /** The client when the bodies are exchanged; a preview leaves nothing unread. */
    function Sends(): Client { if preview then client.(d := client.d.(mem := [], len := 0)) else client }

    /** The exchange comes to choosing what to send. */
    predicate Begins() { ResponseSender.Begins(Sends().d.len, waits) }

    /** The client sends a body, and no wait fails up to the one that brings its last byte. */
    ghost predicate Arrives() { Known(Sends()) && ResponseSender.Enough(waits, |client.net|) }

    predicate Served() { parsed == EC_100 && serviceUp && access == Allowed && encapsOk }

    /** The service wants the rest of a body whose preview ended without an extension. */
    predicate GoesOn()
    {
      hasBody && PreviewRead() == OK && (checkPreview.Absent? || checkPreview.answer == CONTINUE)
    }

    /** The server echoes the body itself: the client does not take the 204 of the service. */
    predicate Echoes()
    {
      !preview && fake204 && !allow204 && hasBody && checkPreview.Handler? && checkPreview.answer == ALLOW204
    }

    /** There is something to read the body of the response from. */
    predicate HasSource() { hasIo || Echoes() }

    predicate Unlocked() { checkPreview.Handler? && checkPreview.unlocks }

    /** What a 204 goes out as. */
    function NoContent(): Code { if as200 then EC_200 else EC_204 }

    /** The exchange of bodies on a new sender. With parseOnly the service is mod_null_io; the echo of the server
        and mod_null_io never unlock the data. */
    method RunSender(parseOnly: bool, locked: bool)
      returns (s: ResponseSender.Responder, ok: bool, left: seq<ResponseSender.Wait>)
      requires Wf()
      ensures fresh(s) && fresh(s.wbuf) && s.plan == plan && (ok ==> s.Valid()) && (!parseOnly ==> s.total == output)
      ensures s.locked ==> locked && s.status == ResponseSender.SEND_NOTHING
      ensures parseOnly || Echoes() ==> s.locked == locked
      ensures !locked ==> (s.status != ResponseSender.SEND_NOTHING <==> Begins())
      ensures Kept(Sends(), s.client) && (ok ==> s.client.eof)
      ensures (greedy || parseOnly) && Arrives() ==> ok && s.client.held == []
    {
      hide ResponseSender.Responder.Valid, Kept, Known, ResponseSender.Enough, PreviewRead;
      s := new ResponseSender.Responder(plan, if parseOnly then [] else output, Sends(), locked, parseOnly || Echoes(), steady,
                                        greedy || parseOnly);
      ok, left := s.GetSendBody(waits);
    }

    // ---- the answers of a whole request, case by case

    /** To a request that is not served. */
    function Refusal(): seq<Code>
    {
      if parsed != EC_100 then if readAny then [parsed] else []
      else if !serviceUp then [EC_500]
      else if access != Allowed then [if access == Unauthenticated then EC_407 else EC_403]
      else [EC_400]
    }

    /** Once the client's data have been read and nothing final is out. */
    function AtEnd(code: Code): seq<Code>
    {
      if endOfData.Absent? || endOfData.answer == DONE then if HasSource() then [code] else []
      else if endOfData.answer == ALLOW204 && allow204 then [NoContent()]
      else if endOfData.answer == ALLOW206 && allow204 && allow206 then if HasSource() then [EC_206] else []
      else [EC_500]
    }

    /** When the client's data are still to be read, and that went as run says. */
    function WithBody(run: Run): seq<Code>
    {
      if !HasSource() || run.NotRun? then []
      else if run.started then [EC_200]
      else if run.ok then AtEnd(EC_200)
      else []
    }

    /** To a request with a preview. */
    function InPreview(run: Run): seq<Code>
    {
      var answer := if checkPreview.Absent? then CONTINUE else checkPreview.answer;
      if hasBody && PreviewRead() == ERROR then [EC_408]
      else if answer == ALLOW204 then [NoContent()]
      else if answer == ALLOW206 && allow206 then AtEnd(EC_206)
      else if answer != CONTINUE then [EC_500]
      else if GoesOn() then [EC_100] + WithBody(run)
      else AtEnd(EC_200)
    }

    /** To a request without one. */
    function OutsidePreview(run: Run): seq<Code>
    {
      var answer := if checkPreview.Absent? then CONTINUE else checkPreview.answer;
      if answer == ALLOW204 && allow204 then
        [NoContent()] + if writes && hasBody && Unlocked() && Begins() then [NoContent()] else []
      else if answer == CONTINUE || (answer == ALLOW204 && (!hasBody || fake204)) then
        if hasBody then WithBody(run) else AtEnd(EC_200)
      else if answer == ALLOW206 && allow204 && allow206 then AtEnd(EC_206)
      else [EC_500]
    }
  }

  // ------------------------------------------------------------------ which code is sent when

  /** What the preview handler says; without one the service wants all data. */
  function Said(w: World): Answer { if w.checkPreview.Absent? then CONTINUE else w.checkPreview.answer }

  /** The preview could not be read. */
  predicate Unreadable(w: World) { w.preview && w.hasBody && w.PreviewRead() == ERROR }

  /** The preview handler wants the request answered without a change, and the client takes that. */
  predicate Unchanged(w: World) { !Unreadable(w) && Said(w) == ALLOW204 && (w.preview || w.allow204) }

  /** The preview handler wants the rest of the original body used, and the client takes that. */
  predicate Partial(w: World) { !Unreadable(w) && Said(w) == ALLOW206 && w.allow206 && (w.preview || w.allow204) }

  /** The service goes on to the whole request; the server stands in for one that does not want to. */
  predicate Wanted(w: World)
  {
    !Unreadable(w) && (Said(w) == CONTINUE || (Said(w) == ALLOW204 && !w.preview && !w.allow204 && (w.fake204 || !w.hasBody)))
  }

  /** Then there is more of the body to receive. */
  predicate Receiving(w: World) { Wanted(w) && w.hasBody && (w.preview ==> w.PreviewRead() == OK) }

  /** do_end_of_data is reached with nothing final out. */
  predicate ReachesEnd(w: World, run: Run)
  {
    Partial(w) || (Wanted(w) && (Receiving(w) ==> w.HasSource() && run.Ran? && !run.started && run.ok))
  }

  /** What the end-of-data handler says; without one the service is done. */
  function SaidAtEnd(w: World): Answer { if w.endOfData.Absent? then DONE else w.endOfData.answer }

  /** The end-of-data handler fails, or says what is out of place at the end or what the client does not allow. */
  predicate FailsLate(w: World)
  {
    || SaidAtEnd(w) == CONTINUE || SaidAtEnd(w) == FAILURE
    || (SaidAtEnd(w) == ALLOW204 && !w.allow204) || (SaidAtEnd(w) == ALLOW206 && !(w.allow204 && w.allow206))
  }

  function Answers(w: World, run: Run): seq<Code> { if w.preview then w.InPreview(run) else w.OutsidePreview(run) }

  /** THE END OF DATA decides: 204 (or 200 in its place) and 206 where the client allows them, the code of the
      preview when the service is done, and 500 for everything else. */
  lemma EndDecides(w: World, run: Run)
    requires ReachesEnd(w, run)
    ensures var front := if w.preview && Receiving(w) then [EC_100] else [];
            && (SaidAtEnd(w) == ALLOW204 && w.allow204 ==> Answers(w, run) == front + [if w.as200 then EC_200 else EC_204])
            && (SaidAtEnd(w) == ALLOW206 && w.allow204 && w.allow206 ==>
                  Answers(w, run) == front + if w.HasSource() then [EC_206] else [])
            && (SaidAtEnd(w) == DONE ==>
                  Answers(w, run) == front + if w.HasSource() then [if Partial(w) then EC_206 else EC_200] else [])
            && (FailsLate(w) ==> Answers(w, run) == front + [EC_500])
  {
    hide World.PreviewRead, World.HasSource;
  }

  /** THE CODES of a request that is served: each is among the answers exactly under its own condition. */
  lemma CodesOfAnswers(w: World, run: Run)
    ensures EC_100 in Answers(w, run) <==> w.preview && Receiving(w)
    ensures EC_408 in Answers(w, run) <==> Unreadable(w)
    ensures EC_204 in Answers(w, run) <==>
            !w.as200 && (Unchanged(w) || (ReachesEnd(w, run) && SaidAtEnd(w) == ALLOW204 && w.allow204))
    ensures EC_206 in Answers(w, run) <==>
            && ReachesEnd(w, run) && w.HasSource()
            && ((SaidAtEnd(w) == ALLOW206 && w.allow204 && w.allow206) || (SaidAtEnd(w) == DONE && Partial(w)))
    ensures EC_200 in Answers(w, run) <==>
            || (w.as200 && (Unchanged(w) || (ReachesEnd(w, run) && SaidAtEnd(w) == ALLOW204 && w.allow204)))
            || (Receiving(w) && w.HasSource() && run.Ran? && run.started)
            || (ReachesEnd(w, run) && SaidAtEnd(w) == DONE && w.HasSource() && !Partial(w))
    ensures forall c :: c in Answers(w, run) ==> c in {EC_100, EC_200, EC_204, EC_206, EC_408, EC_500}
  {
    hide World.PreviewRead, World.HasSource;
  }

  /** The preview handler fails, or says what neither the request nor the client allows. */
  predicate FailsEarly(w: World) { !Unreadable(w) && !Unchanged(w) && !Partial(w) && !Wanted(w) }

  /** 500 is sent exactly when the service fails. */
  lemma ServerError(w: World, run: Run)
    ensures EC_500 in Answers(w, run) <==> FailsEarly(w) || (ReachesEnd(w, run) && FailsLate(w))
    ensures FailsEarly(w) <==>
            && !Unreadable(w)
            && (Said(w) == DONE || Said(w) == FAILURE
                || (Said(w) == ALLOW204 && !w.preview && !w.allow204 && w.hasBody && !w.fake204)
                || (Said(w) == ALLOW206 && !(w.allow206 && (w.preview || w.allow204))))
  {
    hide World.PreviewRead, World.HasSource;
  }

  /** THE CODES of a request that is not served. */
  lemma Refusals(w: World)
    requires !w.Served()
    ensures w.parsed != EC_100 ==> w.Refusal() == if w.readAny then [w.parsed] else []
    ensures w.parsed == EC_100 ==> |w.Refusal()| == 1 && w.Refusal()[0] in {EC_400, EC_403, EC_407, EC_500}
    ensures w.parsed == EC_100 ==> (w.Refusal() == [EC_500] <==> !w.serviceUp)
    ensures w.parsed == EC_100 ==> (w.Refusal() == [EC_403] <==> w.serviceUp && w.access == Denied)
    ensures w.parsed == EC_100 ==> (w.Refusal() == [EC_407] <==> w.serviceUp && w.access == Unauthenticated)
    ensures w.parsed == EC_100 ==> (w.Refusal() == [EC_400] <==> w.serviceUp && w.access == Allowed && !w.encapsOk)
  {
  }

  predicate IsFinal(c: Code) { c != EC_100 }

  function Finals(answers: seq<Code>): nat
  {
    if answers == [] then 0 else Finals(answers[..|answers| - 1]) + if IsFinal(answers[|answers| - 1]) then 1 else 0
  }

  lemma FinalsSnoc(answers: seq<Code>, c: Code)
    ensures Finals(answers + [c]) == Finals(answers) + if IsFinal(c) then 1 else 0
  {
    assert (answers + [c])[..|answers|] == answers;
  }

  /** The one case in which two final answers are started: a 204 outside of a preview, to a request with a
      body, by a service that has unlocked the data. */
  predicate AnswersTwice(w: World)
  {
    && w.Served() && w.kind == MODIFY
    && !w.preview && w.checkPreview.Handler? && w.checkPreview.answer == ALLOW204 && w.allow204 && w.hasBody
    && w.checkPreview.unlocks && w.writes && w.Begins()
  }

  /** The sender runs to its end or fails. */
  method SendOn(s: ResponseSender.Responder, left: seq<ResponseSender.Wait>) returns (ok: bool, stalled: bool)
    requires s.Valid()
    modifies s, s.wbuf
    ensures IsPartial(s.plan, old(s.total), s.sent)
    ensures ok && !stalled ==> IsResponse(s.plan, old(s.total), s.sent)
    ensures s.steady && ResponseSender.Accepted(left) >= s.plan.Bound(old(s.total)) ==> ok && !stalled
  {
    hide ResponseSender.Responder.Valid, ResponseSender.Responder.Ahead, ResponseSender.Plan.Bound,
      ResponseSender.Plan.Full, Concat, GoodBlocks;
    s.AheadBounds();
    s.locked := false;
    ok, stalled := s.SendRemainingResponse(left);
    if ok {
      s.Formed();
    }
  }

  class Request {
    const w: World
    var answers: seq<Code>      // the status lines written or formed, in order
    var returnCode: Code
    var started: bool           // status != SEND_NOTHING
    var finished: bool          // status == SEND_EOF and nothing unsent
    var locked: bool
    var run: Run
    var sending: Sending

    constructor (w: World)
      ensures this.w == w && Fresh()
    {
      this.w := w;
      answers, returnCode, started, finished, locked, run, sending := [], UNSET, false, false, true, NotRun, NotSent;
    }

    ghost predicate Fresh()
      reads this
    {
      answers == [] && returnCode == UNSET && !started && !finished && locked && run == NotRun && sending == NotSent
    }

    /** What may be in the answers. */
    ghost predicate Lawful()
      reads `answers
    {
      && (forall i :: 0 <= i < |answers| ==> answers[i] == EC_100 ==> i == 0 && w.preview && w.hasBody && w.PreviewRead() == OK)
      && (forall i :: 0 <= i < |answers| ==> answers[i] == EC_204 ==> w.preview || w.allow204)
      && (forall i :: 0 <= i < |answers| ==> answers[i] == EC_206 ==> w.allow206 && (w.preview || w.allow204))
    }

    /** The client has been told to go on. */
    ghost predicate Continued()
      reads `answers
    {
      answers != [] && answers[0] == EC_100
    }

    lemma NoAnswers()
      requires answers == []
      ensures Lawful() && Finals(answers) == 0 && !Continued()
    {
    }

    /** A final answer has been started exactly when the sender is not idle. */
    ghost predicate Valid()
      reads this
    {
      Lawful() && Finals(answers) == (if started then 1 else 0) && (finished ==> started)
    }

    /** One more status line. */
    method Answer(c: Code)
      requires Lawful()
      requires c == EC_100 ==> answers == [] && w.preview && w.hasBody && w.PreviewRead() == OK
      requires c == EC_204 ==> w.preview || w.allow204
      requires c == EC_206 ==> w.allow206 && (w.preview || w.allow204)
      modifies `answers
      ensures Lawful() && answers == old(answers) + [c]
      ensures Finals(answers) == Finals(old(answers)) + if IsFinal(c) then 1 else 0
      ensures Continued() <==> old(Continued()) || c == EC_100
    {
      hide Finals;
      FinalsSnoc(answers, c);
      answers := answers + [c];
    }

    /** ec_responce: a whole answer at once; a 204 may go out as a 200 without a body. */
    method EcResponce(ec: Code) returns (ok: bool)
      requires Lawful() && ec != EC_100 && ec != EC_206 && (ec == EC_204 ==> w.preview || w.allow204)
      modifies `answers, `returnCode, `started, `finished
      ensures Lawful() && started && finished && locked == old(locked) && ok == w.writes
      ensures returnCode == if ec == EC_204 && w.as200 then EC_200 else ec
      ensures answers == old(answers) + [returnCode] && Finals(answers) == Finals(old(answers)) + 1
      ensures Continued() <==> old(Continued())
    {
      var code := if ec == EC_204 && w.as200 then EC_200 else ec;
      Answer(code);
      returnCode, started, finished := code, true, true;
      ok := w.writes;
    }

    /** ec_responce_simple with EC_100. */
    method Continue()
      requires Valid() && answers == [] && w.preview && w.hasBody && w.PreviewRead() == OK
      modifies `answers, `returnCode
      ensures Valid() && answers == [EC_100] && returnCode == EC_100 && Continued()
    {
      Answer(EC_100);
      returnCode := EC_100;
    }

    /** update_send_status on an idle sender: the header of the response is formed with the return code. */
    method Start()
      requires Lawful() && !started && (returnCode == EC_200 || returnCode == EC_204 || returnCode == EC_206)
      requires returnCode == EC_204 ==> w.preview || w.allow204
      requires returnCode == EC_206 ==> w.allow206 && (w.preview || w.allow204)
      modifies `answers, `started
      ensures Lawful() && started && answers == old(answers) + [returnCode] && Finals(answers) == Finals(old(answers)) + 1
      ensures Continued() <==> old(Continued())
    {
      Answer(returnCode);
      started := true;
    }

    /** What the service took of the client's body is in order, and all of it but what is still held when the
        exchange is over; with a service that takes what it is offered the exchange succeeds when the body
        arrives, and nothing is still held. */
    ghost predicate Exchanged()
      reads `run
    {
      run.Ran? ==>
        && Kept(w.Sends(), run.client) && (run.ok ==> run.client.eof)
        && (w.greedy && w.Arrives() ==> run.ok && run.client.held == [])
    }

    /** The sender and the flags of the request tell the same; a request that was answered by ec_responce alone
        is finished. */
    ghost predicate Coupled(s: ResponseSender.Responder?)
      reads this, s, if s == null then {} else {s.wbuf}
    {
      && (s != null ==> s.Valid() && s.plan == w.plan && s.total == w.output)
      && (s != null && s.status != ResponseSender.SEND_NOTHING ==> started)
      && (started && (s == null || s.status == ResponseSender.SEND_NOTHING) ==> finished)
    }

    /** get_send_body, run on a sender of its own. */
    method GetSendBody(parseOnly: bool) returns (r: Status, s: ResponseSender.Responder?, left: seq<ResponseSender.Wait>)
      requires Lawful() && w.Wf() && (returnCode == EC_200 || (returnCode == EC_204 && w.allow204))
      requires parseOnly || (!started && !finished)
      modifies `answers, `started, `finished, `locked, `run
      ensures r == OK && !parseOnly ==> s != null && fresh(s) && fresh(s.wbuf) && Coupled(s)
      ensures Lawful() && returnCode == old(returnCode) && (finished ==> started) && (r == OK || r == ERROR)
      ensures parseOnly || w.HasSource() ==> run.Ran? && run.started == started && run.ok == (r == OK) && Exchanged()
      ensures !parseOnly && !w.HasSource() ==> r == ERROR && !started && run == old(run)
      ensures (parseOnly || w.HasSource()) && !old(locked) ==> (started <==> w.Begins())
      ensures old(locked) && (locked || parseOnly || w.Echoes()) ==> !started
      ensures answers == old(answers) + if started then [returnCode] else []
      ensures Finals(answers) == Finals(old(answers)) + if started then 1 else 0
      ensures Continued() <==> old(Continued())
    {
      hide World.PreviewRead, Lawful, Finals, Continued, ResponseSender.Responder.Valid, Kept, World.Arrives, World.Begins, World.Sends;
      s, left := null, w.waits;
      if !parseOnly && !w.HasSource() {
        return ERROR, s, left;
      }
      var ok;
      s, ok, left := w.RunSender(parseOnly, locked);
      started := false;
      if s.status != ResponseSender.SEND_NOTHING {
        Start();
      }
      finished := s.status == ResponseSender.SEND_EOF && s.remain == 0;
      locked, run := s.locked, Ran(started, ok, s.client);
      r := if ok then OK else ERROR;
    }

    /** A handler runs. */
    method Ask(h: Handler) returns (a: Answer)
      requires h.Handler?
      modifies `locked
      ensures a == h.answer && locked == (old(locked) && !h.unlocks)
    {
      a := h.answer;
      locked := locked && !h.unlocks;
    }

    /** Between the preview and the rest of the request: nothing final is sent yet, or the answer is complete. */
    ghost predicate Decided()
      reads this
    {
      && Lawful() && (finished ==> started)
      && (started ==> Finals(answers) >= 1 && (returnCode == EC_200 || returnCode == EC_204))
      && (!started && returnCode != EC_204 ==> Finals(answers) == 0)
      && (returnCode == EC_204 ==> Finals(answers) >= 1) && (returnCode == EC_100 ==> w.hasBody)
      && (returnCode == EC_206 ==> w.allow206 && (w.preview || w.allow204))
      && (started && returnCode == EC_200 ==> finished && Finals(answers) == 1)
    }

    /** What Finish adds to the answers. */
    ghost function Remaining(preview: Status, x: Run): seq<Code>
      reads `returnCode, `started
    {
      if preview == EOF then w.AtEnd(EC_200)
      else if started || returnCode == EC_204 then []
      else if returnCode == EC_100 then w.WithBody(x)
      else w.AtEnd(returnCode)
    }

    /** The preview is read into a buffer made for its announced length. */
    method ReadPreview() returns (status: Status)
      requires w.Wf()
      ensures status == w.PreviewRead()
    {
      hide Preview.PreviewRead;
      var buf := new Preview.Buf(w.held);
      buf.Resize(w.announced + 64);
      status := Preview.ReadPreviewData(w.start, w.stream, w.arrivals, buf);
    }

    /** do_request_preview. */
    method RequestPreview() returns (r: Status)
      requires Fresh() && w.Wf() && w.preview
      modifies `answers, `returnCode, `started, `finished, `locked
      ensures Lawful() && Finals(answers) <= 1 && (r != ERROR ==> Decided())
      ensures r == EOF ==> Finals(answers) == 0 && (!w.hasBody || w.PreviewRead() == EOF)
      ensures Continued() <==> w.GoesOn()
      ensures r == ERROR ==> forall x :: w.InPreview(x) == answers
      ensures r != ERROR ==> forall x :: w.InPreview(x) == answers + Remaining(r, x)
      ensures r != ERROR ==> locked == !w.Unlocked()
      ensures (r == OK || r == EOF || r == ERROR) && (r == EOF ==> !started) && (r == OK ==> returnCode in {EC_100, EC_200, EC_204, EC_206})
    {
      hide World.PreviewRead, Lawful, Finals, Continued, Decided;
      NoAnswers();
      var status := EOF;
      if w.hasBody {
        status := ReadPreview();
      }
      if status == ERROR {
        var ok := EcResponce(EC_408);
        return ERROR;
      }
      var res := CONTINUE;
      if w.checkPreview.Handler? {
        res := Ask(w.checkPreview);
      }
      r := ActOnPreview(res, status);
    }

    /** What do_request_preview does with the answer of the handler. */
    method ActOnPreview(res: Answer, status: Status) returns (r: Status)
      requires answers == [] && returnCode == UNSET && !started && !finished && w.preview
      requires status != ERROR && status == if w.hasBody then w.PreviewRead() else EOF
      modifies `answers, `returnCode, `started, `finished
      ensures Lawful() && Finals(answers) <= 1 && (r != ERROR ==> Decided())
      ensures r == EOF ==> Finals(answers) == 0 && status == EOF
      ensures Continued() <==> status == OK && res == CONTINUE
      ensures r == OK || r == EOF || r == ERROR
      ensures res == ALLOW204 ==> answers == [w.NoContent()] && (r == OK || r == ERROR) && started && returnCode == w.NoContent()
      ensures res == ALLOW206 && w.allow206 ==> answers == [] && r == OK && !started && returnCode == EC_206
      ensures res == CONTINUE && status == OK ==> answers == [EC_100] && r == OK && !started && returnCode == EC_100
      ensures res == CONTINUE && status == EOF ==> answers == [] && r == EOF && !started
      ensures res != CONTINUE && res != ALLOW204 && !(res == ALLOW206 && w.allow206) ==> answers == [EC_500] && r == ERROR
    {
      hide World.PreviewRead, Lawful, Finals, Continued;
      NoAnswers();
      r := OK;
      if res == ALLOW204 {
        var ok := EcResponce(EC_204);
        r := if ok then OK else ERROR;
      } else if res == ALLOW206 && w.allow206 {
        returnCode := EC_206;
      } else if res != CONTINUE {
        var ok := EcResponce(EC_500);
        r := ERROR;
      } else if status != EOF {
        Continue();
      } else {
        r := EOF;
      }
    }

    /** A 204 outside of a preview: the body that the client sends on is read and dropped. */
    method NoContent() returns (r: Status)
      requires Lawful() && Finals(answers) == 0 && !finished && w.Wf() && w.allow204
      modifies `answers, `returnCode, `started, `finished, `locked, `run
      ensures Lawful() && (r == OK || r == ERROR) && (r == OK ==> Decided())
      ensures Finals(answers) == if w.writes && w.hasBody && w.Begins() && !old(locked) then 2 else 1
      ensures answers == old(answers) + [w.NoContent()] +
                         if w.writes && w.hasBody && w.Begins() && !old(locked) then [w.NoContent()] else []
      ensures (Continued() <==> old(Continued())) && (r == OK ==> returnCode == EC_204)
      ensures run == old(run) || (run.Ran? && Exchanged() && (!old(locked) ==> (run.started <==> w.Begins())))
    {
      hide World.PreviewRead, Lawful, Finals, Continued;
      var ok := EcResponce(EC_204);
      if !ok {
        return ERROR;
      }
      if w.hasBody {
        var s, left;
        r, s, left := GetSendBody(true);
        if r == ERROR {
          return;
        }
      }
      returnCode := EC_204;
      return OK;
    }

    /** do_fake_preview: the client sends no preview. */
    method FakePreview() returns (r: Status)
      requires Fresh() && w.Wf() && !w.preview
      modifies `answers, `returnCode, `started, `finished, `locked, `run
      ensures Lawful() && (r == OK || r == ERROR) && (r != ERROR ==> Decided()) && !Continued()
      ensures Finals(answers) <= 2
      ensures Finals(answers) == 2 <==>
              && w.checkPreview.Handler? && w.checkPreview.answer == ALLOW204 && w.allow204 && w.hasBody
              && w.checkPreview.unlocks && w.writes && w.Begins()
      ensures r == ERROR ==> forall x :: w.OutsidePreview(x) == answers
      ensures r != ERROR ==> forall x :: w.OutsidePreview(x) == answers + Remaining(r, x)
      ensures r != ERROR ==> (locked == !w.Unlocked() || returnCode == EC_204) && returnCode in {EC_100, EC_200, EC_204, EC_206}
      ensures Exchanged() && (run.Ran? && w.Unlocked() ==> (run.started <==> w.Begins()))
    {
      hide World.PreviewRead, Lawful, Finals, Continued, Kept;
      NoAnswers();
      var res := CONTINUE;
      if w.checkPreview.Handler? {
        res := Ask(w.checkPreview);
      }
      r := OK;
      if res == ALLOW204 && w.allow204 {
        r := NoContent();
      } else if res == CONTINUE || (res == ALLOW204 && (!w.hasBody || w.fake204)) {
        returnCode := if w.hasBody then EC_100 else EC_200;
      } else if res == ALLOW206 && w.allow204 && w.allow206 {
        returnCode := EC_206;
      } else {
        var ok := EcResponce(EC_500);
        r := ERROR;
      }
    }

    /** do_end_of_data. */
    method EndOfData() returns (r: Status)
      requires Valid() && (returnCode == EC_206 ==> w.allow206 && (w.preview || w.allow204))
      modifies `answers, `returnCode, `started, `finished, `locked
      ensures if old(started) then finished == old(finished) else finished == started
      ensures Valid() && (r == OK || r == ERROR) && (old(started) ==> started) && (Continued() <==> old(Continued()))
      ensures returnCode == EC_206 ==> w.allow206 && (w.preview || w.allow204)
      ensures old(started) ==> answers == old(answers) && returnCode == old(returnCode)
      ensures !old(started) && w.endOfData.Handler? && w.endOfData.answer == ALLOW204 && w.allow204 ==>
                answers == old(answers) + [if w.as200 then EC_200 else EC_204] && started
      ensures !old(started) && w.endOfData.Handler? && w.endOfData.answer == ALLOW206 && w.allow204 && w.allow206 ==>
                r == OK && answers == old(answers) && !started && returnCode == EC_206
      ensures !old(started) && w.endOfData.Handler? && w.endOfData.answer == DONE ==>
                r == OK && answers == old(answers) && !started && returnCode == old(returnCode)
      ensures !old(started) && w.endOfData.Handler? && (w.endOfData.answer == CONTINUE || w.endOfData.answer == FAILURE) ==>
                r == ERROR && answers == old(answers) + [EC_500]
      ensures !old(started) && w.endOfData.Handler? && (if w.endOfData.answer == ALLOW204 then !w.allow204
                else w.endOfData.answer == ALLOW206 && !(w.allow204 && w.allow206)) ==>
                r == ERROR && answers == old(answers) + [EC_500]
      ensures !old(started) && (r == ERROR || started) ==> answers == old(answers) + w.AtEnd(old(returnCode))
      ensures r == OK && !started ==> answers == old(answers) && (returnCode == old(returnCode) || returnCode == EC_206)
      ensures r == OK && !started ==> w.AtEnd(old(returnCode)) == if w.HasSource() then [returnCode] else []
    {
      hide World.PreviewRead, Lawful, Finals, Continued;
      r := OK;
      if w.endOfData.Handler? {
        var res := Ask(w.endOfData);
        if started {
          r := if res == DONE then OK else ERROR;
        } else {
          r := ActOnEnd(res);
        }
      }
    }

    /** What do_end_of_data does with the answer of the handler when nothing final is out. */
    method ActOnEnd(res: Answer) returns (r: Status)
      requires Valid() && !started && w.endOfData.Handler? && w.endOfData.answer == res
      requires returnCode == EC_206 ==> w.allow206 && (w.preview || w.allow204)
      modifies `answers, `returnCode, `started, `finished
      ensures Valid() && (r == OK || r == ERROR) && (Continued() <==> old(Continued())) && finished == started
      ensures returnCode == EC_206 ==> w.allow206 && (w.preview || w.allow204)
      ensures w.endOfData.answer == ALLOW204 && w.allow204 ==>
                answers == old(answers) + [if w.as200 then EC_200 else EC_204] && started
      ensures w.endOfData.answer == ALLOW206 && w.allow204 && w.allow206 ==>
                r == OK && answers == old(answers) && !started && returnCode == EC_206
      ensures w.endOfData.answer == DONE ==>
                r == OK && answers == old(answers) && !started && returnCode == old(returnCode)
      ensures (w.endOfData.answer == CONTINUE || w.endOfData.answer == FAILURE) ==>
                r == ERROR && answers == old(answers) + [EC_500]
      ensures (if w.endOfData.answer == ALLOW204 then !w.allow204
                else w.endOfData.answer == ALLOW206 && !(w.allow204 && w.allow206)) ==>
                r == ERROR && answers == old(answers) + [EC_500]
      ensures r == ERROR || started ==> answers == old(answers) + w.AtEnd(old(returnCode))
      ensures r == OK && !started ==> answers == old(answers) && (returnCode == old(returnCode) || returnCode == EC_206)
      ensures r == OK && !started ==> w.AtEnd(old(returnCode)) == if w.HasSource() then [returnCode] else []
    {
      hide World.PreviewRead, Lawful, Finals, Continued, World.HasSource;
      r := OK;
      if res == ALLOW204 && w.allow204 {
        var ok := EcResponce(EC_204);
        r := if ok then OK else ERROR;
      } else if res == ALLOW206 && w.allow204 && w.allow206 {
        returnCode := EC_206;
      } else if res != DONE {
        r := ERROR;
        var ok := EcResponce(EC_500);
      }
    }

    /** What was sent in the end: always a beginning of a response, and all of one when the request succeeded and
        the service did not stall. When no bodies were exchanged before, a steady service and a socket that
        accepts something often enough are all it takes. */
    ghost predicate Sent(r: Status)
      reads `sending, `run
    {
      sending.Sending? ==>
        && IsPartial(w.plan, w.output, sending.bytes)
        && (r == OK && !sending.stalled ==> IsResponse(w.plan, w.output, sending.bytes))
        && (run.NotRun? && w.steady && ResponseSender.Accepted(w.waits) >= w.plan.Bound(w.output) ==> r == OK && !sending.stalled)
    }

    /** send_remaining_response, on the sender of the exchange if there was one. */
    method SendRemaining(s: ResponseSender.Responder?, left: seq<ResponseSender.Wait>) returns (r: Status)
      requires Valid() && w.Wf() && Coupled(s) && sending == NotSent && (returnCode == EC_200 || returnCode == EC_206 || started)
      requires returnCode == EC_206 ==> w.allow206 && (w.preview || w.allow204)
      requires run.NotRun? ==> s == null && left == w.waits
      modifies `answers, `started, `sending, s, if s == null then {} else {s.wbuf}
      ensures Valid() && (r == OK || r == ERROR) && (r == OK || old(started) ==> started)
      ensures Continued() <==> old(Continued())
      ensures w.HasSource() && !old(started) ==> answers == old(answers) + [returnCode]
      ensures !w.HasSource() || old(started) ==> answers == old(answers)
      ensures returnCode == old(returnCode)
      ensures Sent(r)
      ensures w.HasSource() && !old(finished) ==> sending.Sending?
    {
      hide World.PreviewRead, Lawful, Finals, Continued, ResponseSender.Responder.Valid, ResponseSender.Plan.Bound,
        IsPartial, IsResponse;
      if !w.HasSource() {
        return ERROR;
      }
      if finished && (s == null || s.status == ResponseSender.SEND_NOTHING) {
        return OK;
      }
      if !started {
        Start();
      }
      var sender: ResponseSender.Responder;
      if s == null {
        sender := new ResponseSender.Responder(w.plan, w.output, w.Sends(), false, w.Echoes(), w.steady, w.greedy);
      } else {
        sender := s;
      }
      var ok, stalled := SendOn(sender, left);
      sending := Sending(sender.sent, stalled);
      r := if ok then OK else ERROR;
    }

    /** do_request up to the dispatch on the method: the answer to a request that cannot be served. */
    method Prepare() returns (ready: bool)
      requires Fresh() && w.Wf()
      modifies `answers, `returnCode, `started, `finished
      ensures !Continued()
      ensures ready ==> Fresh() && Lawful() && Finals(answers) == 0 && w.Served()
      ensures !ready ==> Lawful() && Finals(answers) <= 1 && !w.Served() && answers == w.Refusal()
    {
      hide World.PreviewRead, Lawful, Finals, Continued;
      NoAnswers();
      var ok;
      ready := false;
      if w.parsed != EC_100 {
        returnCode := w.parsed;
        if w.readAny {
          ok := EcResponce(w.parsed);
        }
      } else if !w.serviceUp {
        ok := EcResponce(EC_500);
      } else if w.access != Allowed {
        ok := EcResponce(if w.access == Unauthenticated then EC_407 else EC_403);
      } else if !w.encapsOk {
        ok := EcResponce(EC_400);
      } else {
        ready := true;
      }
    }

    lemma NoSender()
      ensures (started ==> finished) ==> Coupled(null)
    {
    }

    lemma NothingSent(r: Status)
      requires sending == NotSent
      ensures Sent(r)
    {
    }

    /** The rest of a request after its preview. */
    method Finish(preview: Status) returns (r: Status, x: Run)
      requires sending == NotSent
      requires Decided() && w.Wf() && preview != ERROR && (preview == EOF ==> Finals(answers) == 0 && !started)
      requires locked == !w.Unlocked() || returnCode == EC_204
      modifies this
      ensures Lawful() && Finals(answers) <= (if Finals(old(answers)) > 1 then Finals(old(answers)) else 1)
      ensures Finals(answers) >= Finals(old(answers)) && (r == OK || r == ERROR) && (Continued() <==> old(Continued()))
      ensures r == OK ==> Finals(answers) >= 1
      ensures preview == EOF || old(returnCode) in {EC_100, EC_200, EC_204, EC_206} ==>
                answers == old(answers) + old(Remaining(preview, x))
      ensures Sent(r)
      ensures x == run && (old(Exchanged()) ==> Exchanged())
      ensures (run == old(run) || (run.Ran? && (w.Unlocked() ==> (run.started <==> w.Begins()))))
    {
      hide World.PreviewRead, Lawful, Finals, Continued, World.AtEnd, ResponseSender.Responder.Valid, IsPartial, IsResponse, Exchanged,
        World.Begins, World.HasSource, Coupled, Sent;
      if preview == EOF {
        returnCode := EC_200;
      }
      x := run;
      var s: ResponseSender.Responder?, left := null, w.waits;
      if returnCode == EC_204 {
        NothingSent(OK);
        return OK, x;
      }
      if returnCode != EC_100 && returnCode != EC_200 && returnCode != EC_206 {
        var ok := EcResponce(EC_500);
        NothingSent(ERROR);
        return ERROR, x;
      }
      if returnCode == EC_100 && w.hasBody && preview != EOF {
        returnCode := EC_200;
        r, s, left := GetSendBody(false);
        x := run;
        if r == ERROR {
          NothingSent(r);
          return;
        }
      }
      if s == null {
        NoSender();
      }
      r := Conclude(s, left);
    }

    /** All data of the client have been received: the end-of-data handler, and then what is left to send. */
    method Conclude(s: ResponseSender.Responder?, left: seq<ResponseSender.Wait>) returns (r: Status)
      requires Valid() && w.Wf() && Coupled(s) && sending == NotSent && returnCode in {EC_200, EC_206}
      requires returnCode == EC_206 ==> w.allow206 && (w.preview || w.allow204)
      requires run.NotRun? ==> s == null && left == w.waits
      modifies `answers, `returnCode, `started, `finished, `locked, `sending, s, if s == null then {} else {s.wbuf}
      ensures Valid() && (r == OK || r == ERROR) && (r == OK || old(started) ==> started) && (Continued() <==> old(Continued()))
      ensures Sent(r)
      ensures old(started) ==> answers == old(answers)
      ensures !old(started) ==> answers == old(answers) + w.AtEnd(old(returnCode))
    {
      hide World.PreviewRead, Lawful, Finals, Continued, World.AtEnd, ResponseSender.Responder.Valid, IsPartial, IsResponse, Exchanged;
      r := EndOfData();
      assert old(answers) + [] == old(answers);
      if r == ERROR || returnCode == EC_204 {
        return;
      }
      locked := false;
      r := SendRemaining(s, left);
    }

    /** DO_REQUEST. For every client, configuration and service: 100 Continue at most once, first, and only
        in a preview that ended without an extension; 204 only in a preview or when the client allows it;
        206 only when the client allows it; never more than one final answer but in the one case of
        AnswersTwice; and a request that succeeds has been answered. */
    method DoRequest() returns (r: Status)
      requires Fresh() && w.Wf()
      modifies this
      ensures Lawful()
      ensures Continued() <==> w.Served() && w.kind == MODIFY && w.preview && w.GoesOn()
      ensures Finals(answers) <= 2 && (Finals(answers) == 2 <==> AnswersTwice(w))
      ensures r == OK ==> Finals(answers) >= 1
      ensures !w.Served() ==> answers == w.Refusal()
      ensures w.Served() && w.kind == OPTIONS ==> answers == [EC_200] || answers == [EC_500]
      ensures w.Served() && w.kind == MODIFY ==> answers == Answers(w, run)
      ensures w.Served() && w.kind == UNKNOWN ==> answers == [] && r == ERROR
      ensures Exchanged() && (run.Ran? && w.Unlocked() ==> (run.started <==> w.Begins()))
      ensures Sent(r)
    {
      hide World.PreviewRead, Lawful, Finals, Continued;
      var ready := Prepare();
      if !ready {
        return ERROR;
      }
      if w.kind == OPTIONS {
        Options();
        return OK;
      }
      if w.kind == UNKNOWN {
        return ERROR;
      }
      if w.preview {
        r := RequestPreview();
      } else {
        r := FakePreview();
      }
      if r != ERROR {
        ghost var x;
        r, x := Finish(r);
      }
    }

    /** options_responce: one answer, a 200 or a 500. */
    method Options()
      requires Fresh()
      modifies `answers, `returnCode
      ensures Lawful() && Finals(answers) == 1 && !Continued() && (answers == [EC_200] || answers == [EC_500])
    {
      returnCode := EC_200;
      var ok: bool := *;
      Answer(if ok then EC_200 else EC_500);
    }
  }

  lemma ReadInBuffer(w: World)
    requires w.start.Wf()
    ensures w.PreviewRead() == Preview.PreviewRead(w.start, w.stream, w.arrivals, Preview.Capacity(w.held, w.announced + 64))
  {
  }

  /** What a client ends its preview with decides: a 100 Continue means that the last chunk was plain, and a
      preview that keeps to its announced length and has arrived is gone on with exactly when its last
      chunk is plain and the service wants more. */
  lemma GoesOnIfPlain(w: World, blocks: seq<string>, last: Last, rest: string)
    requires w.Wf() && w.hasBody && GoodBlocks(blocks) && GoodLast(last)
    requires !w.start.eof && w.start.cur == w.start.read && w.start.len <= BUFSIZE
    requires w.start.Unread() + w.stream == Encode(blocks) + LastChunk(last) + rest
    ensures w.GoesOn() ==> last.Plain?
    ensures Productive(w.arrivals) >= |w.stream| && |Concat(blocks)| <= w.announced ==>
              (w.GoesOn() <==> last.Plain? && (w.checkPreview.Absent? || w.checkPreview.answer == CONTINUE))
  {
    hide Preview.PreviewRead, Preview.Capacity, World.PreviewRead, Encode, LastChunk, Concat, Productive, GoodBlocks, GoodLast;
    ReadInBuffer(w);
    Preview.PreviewEnds(blocks, last, rest, w.start, w.stream, w.arrivals, Preview.Capacity(w.held, w.announced + 64));
    if Productive(w.arrivals) >= |w.stream| && |Concat(blocks)| <= w.announced {
      Preview.AnnouncedFits(w.announced, w.held, blocks, last, rest, w.start, w.stream, w.arrivals);
    }
  }
}
