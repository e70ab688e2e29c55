/** The `/chat` turn: bad requests are refused, the first turn of a thread creates its patient and
    sends the persona, every turn appends the inputs and exactly one reply to that thread's messages. */
module Session {
  import opened Wrappers
  import opened Json
  import opened Fences
  import opened Patient

  /** SystemMessage, HumanMessage and the model's AIMessage. */
  datatype Role = System | Human | Ai

  datatype Message = Message(role: Role, content: string)

  /** The actor model: given the thread's messages it answers with a text, or raises (None). */
  type Model = seq<Message> -> Option<string>

  /** The two fields `chat` reads from the request body; None stands for a missing field. */
  datatype ChatRequest = ChatRequest(threadId: Option<string>, message: Option<string>)

  datatype PatientInfo = PatientInfo(name: Json, age: Json, sex: Json)

  datatype ChatResponse =
    | BadRequest                                        // 400 {"error": "Bad Request"}
    | ServerError                                       // 500: the persona could not be rendered
    | Reply(response: string, patientInfo: PatientInfo) // 200

  /** `patient_store` and the checkpointer's per-thread message list. */
  datatype State = State(store: map<string, Record>, threads: map<string, seq<Message>>)

  datatype Outcome = Outcome(response: ChatResponse, state: State)

  /** `not uid or not msg` is false: both fields present and non-empty. */
  predicate Admissible(req: ChatRequest) {
    req.threadId.Some? && req.threadId.value != [] && req.message.Some? && req.message.value != []
  }

  /** The `operator.add` reducer of the `messages` channel: an update is appended to what is there. */
  function AddMessages(current: seq<Message>, update: seq<Message>): (r: seq<Message>)
    ensures |r| == |current| + |update|
    ensures r[..|current|] == current && r[|current|..] == update
  {
    current + update
  }

  /** `bot_node`: one message, the model's answer when it gives one, else a human-tagged "...". */
  function BotNode(messages: seq<Message>, model: Model): (m: Message)
    ensures m.role == Ai <==> model(messages).Some?
    ensures m.role != System
    ensures model(messages).Some? ==> m.content == model(messages).value
    ensures model(messages).None? ==> m.content == "..."
  {
    match model(messages)
    case Some(text) => Message(Ai, text)
    case None => Message(Human, "...")
  }

  /** The messages checkpointed for a thread; a thread never seen has none. */
  function Checkpoint(threads: map<string, seq<Message>>, uid: string): (r: seq<Message>)
    ensures uid in threads ==> r == threads[uid]
    ensures uid !in threads ==> r == []
  {
    if uid in threads then threads[uid] else []
  }

  /** The header fields, each from the stored case or "Unknown", "?", "?" when it is not there. */
  function Header(store: map<string, Record>, uid: string): (info: PatientInfo)
    ensures uid !in store ==> info == PatientInfo(JStr("Unknown"), JStr("?"), JStr("?"))
    ensures uid in store && Has(store[uid], "name") ==> Some(info.name) == Get(store[uid], "name")
    ensures uid in store && !Has(store[uid], "name") ==> info.name == JStr("Unknown")
    ensures uid in store && Has(store[uid], "age") ==> Some(info.age) == Get(store[uid], "age")
    ensures uid in store && !Has(store[uid], "age") ==> info.age == JStr("?")
    ensures uid in store && Has(store[uid], "sex") ==> Some(info.sex) == Get(store[uid], "sex")
    ensures uid in store && !Has(store[uid], "sex") ==> info.sex == JStr("?")
  {
    var p := if uid in store then store[uid] else [];
    PatientInfo(GetOr(p, "name", JStr("Unknown")), GetOr(p, "age", JStr("?")), GetOr(p, "sex", JStr("?")))
  }

  /** `agent.invoke`: the inputs are added to the thread, the bot node answers what it then holds,
      its message is added too, and the response is the content of the last message. */
  function Invoke(s: State, uid: string, inputs: seq<Message>, model: Model): (o: Outcome)
    ensures o.state.store == s.store
    ensures uid in o.state.threads
    ensures o.response.Reply?
    ensures s.threads.Keys <= o.state.threads.Keys
    ensures forall t :: t in s.threads ==> s.threads[t] <= o.state.threads[t]
  {
    var seen := AddMessages(Checkpoint(s.threads, uid), inputs);
    var log := AddMessages(seen, [BotNode(seen, model)]);
    Outcome(Reply(log[|log| - 1].content, Header(s.store, uid)), State(s.store, s.threads[uid := log]))
  }

  /** One call of `chat` on the state s, with the creator's raw answer (used only when a new
      session is opened), the JSON parser and the actor model. */
  function Turn(s: State, req: ChatRequest, creator: Option<string>, loads: Loader, model: Model): (o: Outcome)
    ensures s.threads.Keys <= o.state.threads.Keys && s.store.Keys <= o.state.store.Keys
    ensures forall t :: t in s.threads ==> s.threads[t] <= o.state.threads[t]
    ensures o.response.Reply? ==> Admissible(req) && req.threadId.value in o.state.threads
  {
    if !Admissible(req) then Outcome(BadRequest, s)
    else
      var uid, human := req.threadId.value, Message(Human, req.message.value);
      if uid in s.threads then Invoke(s, uid, [human], model)
      else Open(s, uid, human, GeneratePatient(creator, loads), model)
  }

  /** The first turn of a thread, with the case p just generated: it is stored before its persona
      is rendered, and the persona goes in front of the human message. */
  function Open(s: State, uid: string, human: Message, p: Record, model: Model): (o: Outcome)
    ensures o.state.store == s.store[uid := p]
    ensures o.response.ServerError? <==> RenderPersona(p).Err?
    ensures RenderPersona(p).Err? ==> o.state.threads == s.threads
    ensures RenderPersona(p).Ok? ==>
              var seen := Checkpoint(s.threads, uid) + [Message(System, RenderPersona(p).value), human];
              && o.state.threads == s.threads[uid := seen + [BotNode(seen, model)]]
              && o.response == Reply(BotNode(seen, model).content, Header(s.store[uid := p], uid))
  {
    var created := State(s.store[uid := p], s.threads);
    match RenderPersona(p)
    case Err(_) => Outcome(ServerError, created)
    case Ok(prompt) => Invoke(created, uid, [Message(System, prompt), human], model)
  }

  /** A bad request is answered 400 and changes nothing, whatever the creator, parser and model would do. */
  lemma BadRequestChangesNothing(s: State, req: ChatRequest, creator: Option<string>, loads: Loader, model: Model,
                                 creator': Option<string>, loads': Loader, model': Model)
    requires !Admissible(req)
    ensures Turn(s, req, creator, loads, model) == Outcome(BadRequest, s)
    ensures Turn(s, req, creator, loads, model) == Turn(s, req, creator', loads', model')
  {
  }

  /** On a thread with no messages, one patient is generated and stored under the thread id. If the
      persona renders, the model is given exactly [system(persona), human(message)] and the thread
      holds those two and the reply; if it does not, the store keeps the case, the thread stays
      empty and the answer is 500. */
  lemma FirstTurnOpensSession(s: State, req: ChatRequest, creator: Option<string>, loads: Loader, model: Model)
    requires Admissible(req) && req.threadId.value !in s.threads
    ensures var o := Turn(s, req, creator, loads, model);
            var uid, p := req.threadId.value, GeneratePatient(creator, loads);
            && o.state.store == s.store[uid := p]
            && (RenderPersona(p).Err? ==> o.response == ServerError && o.state.threads == s.threads)
            && (RenderPersona(p).Ok? ==>
                  var inputs := [Message(System, RenderPersona(p).value), Message(Human, req.message.value)];
                  o.state.threads == s.threads[uid := inputs + [BotNode(inputs, model)]])
  {
  }

  /** On a thread that has messages, only the human message is sent, after everything the thread
      already holds; the store is untouched and the creator is never consulted. */
  lemma LaterTurnSendsOnlyTheMessage(s: State, req: ChatRequest, creator: Option<string>, loads: Loader,
                                     model: Model, creator': Option<string>, loads': Loader)
    requires Admissible(req) && req.threadId.value in s.threads
    ensures var o := Turn(s, req, creator, loads, model);
            var uid, human := req.threadId.value, Message(Human, req.message.value);
            var seen := s.threads[uid] + [human];
            && o.state.store == s.store
            && o.state.threads == s.threads[uid := seen + [BotNode(seen, model)]]
            && o == Turn(s, req, creator', loads', model)
  {
  }

  /** A turn appends its inputs and then exactly one reply to its own thread, and the response is
      that reply's content: "..." when the model raised, the model's text otherwise. */
  lemma OneReplyPerTurn(s: State, req: ChatRequest, creator: Option<string>, loads: Loader, model: Model)
    requires Admissible(req)
    requires Turn(s, req, creator, loads, model).response.Reply?
    ensures var o := Turn(s, req, creator, loads, model);
            var uid := req.threadId.value;
            var log := o.state.threads[uid];
            var old' := Checkpoint(s.threads, uid);
            && |log| == |old'| + (if uid in s.threads then 1 else 2) + 1
            && log[..|old'|] == old'
            && log[|log| - 2] == Message(Human, req.message.value)
            && o.response.response == log[|log| - 1].content
            && log[|log| - 1] == BotNode(log[..|log| - 1], model)
            && (model(log[..|log| - 1]).None? ==> o.response.response == "...")
  {
    var uid, human := req.threadId.value, Message(Human, req.message.value);
    if uid in s.threads {
      InvokeOneReply(s, uid, [human], model);
    } else {
      var p := GeneratePatient(creator, loads);
      InvokeOneReply(State(s.store[uid := p], s.threads), uid, [Message(System, RenderPersona(p).value), human], model);
    }
  }

  lemma InvokeOneReply(s: State, uid: string, inputs: seq<Message>, model: Model)
    requires |inputs| > 0
    ensures var o := Invoke(s, uid, inputs, model);
            var log := o.state.threads[uid];
            var prior := Checkpoint(s.threads, uid);
            && |log| == |prior| + |inputs| + 1
            && log[..|prior|] == prior
            && log[|log| - 2] == inputs[|inputs| - 1]
            && o.response.response == log[|log| - 1].content
            && log[|log| - 1] == BotNode(log[..|log| - 1], model)
  {
    InvokeAppends(s, uid, inputs, model);
    var prior := Checkpoint(s.threads, uid);
    var log := prior + inputs + [BotNode(prior + inputs, model)];
    assert log[..|log| - 1] == prior + inputs;
    assert log[..|prior|] == prior;
  }

  /** One invoke appends the inputs and the bot node's message to the thread, and answers with it. */
  lemma InvokeAppends(s: State, uid: string, inputs: seq<Message>, model: Model)
    ensures var o := Invoke(s, uid, inputs, model);
            var seen := Checkpoint(s.threads, uid) + inputs;
            var reply := BotNode(seen, model);
            && o.state.threads[uid] == seen + [reply]
            && o.response == Reply(reply.content, Header(s.store, uid))
  {
  }

  /** No turn touches another thread's messages or stored case. */
  lemma OtherThreadsUntouched(s: State, req: ChatRequest, creator: Option<string>, loads: Loader, model: Model, t: string)
    requires Admissible(req) && t != req.threadId.value
    ensures var o := Turn(s, req, creator, loads, model);
            && (t in o.state.threads <==> t in s.threads)
            && (t in s.threads ==> o.state.threads[t] == s.threads[t])
            && (t in o.state.store <==> t in s.store)
            && (t in s.store ==> o.state.store[t] == s.store[t])
  {
    var uid := req.threadId.value;
    if uid !in s.threads {
      var p := GeneratePatient(creator, loads);
      var created := State(s.store[uid := p], s.threads);
      if RenderPersona(p).Ok? {
        InvokeLeavesOthers(created, uid, [Message(System, RenderPersona(p).value), Message(Human, req.message.value)], model, t);
      }
    }
  }

  /** An invoke on uid changes the messages of uid alone, and no stored case. */
  lemma InvokeLeavesOthers(s: State, uid: string, inputs: seq<Message>, model: Model, t: string)
    requires t != uid
    ensures var o := Invoke(s, uid, inputs, model);
            && (t in o.state.threads <==> t in s.threads)
            && (t in s.threads ==> o.state.threads[t] == s.threads[t])
            && o.state.store == s.store
  {
  }

  /** A thread's checkpoint: the persona first, then (human message, reply) pairs. */
  ghost predicate WellFormedThread(log: seq<Message>) {
    && |log| >= 3 && |log| % 2 == 1
    && log[0].role == System
    && (forall i :: 1 <= i < |log| ==> log[i].role != System)
    && (forall i :: 1 <= i < |log| && i % 2 == 1 ==> log[i].role == Human)
  }

  /** Every thread with messages has a stored case, every stored case has a name and a disease,
      and every thread's messages are well formed. */
  ghost predicate Inv(s: State) {
    && s.threads.Keys <= s.store.Keys
    && (forall t :: t in s.store ==> IsPatient(s.store[t]))
    && (forall t :: t in s.threads ==> WellFormedThread(s.threads[t]))
  }

  lemma WellFormedAppend(log: seq<Message>, human: Message, reply: Message)
    requires WellFormedThread(log) && human.role == Human && reply.role != System
    ensures WellFormedThread(log + [human, reply])
  {
    var log' := log + [human, reply];
    forall i | 1 <= i < |log'|
      ensures log'[i].role != System
      ensures i % 2 == 1 ==> log'[i].role == Human
    {
      if i < |log| {
        assert log'[i] == log[i];
      }
    }
  }

  lemma InvAfterInvoke(s: State, uid: string, log: seq<Message>)
    requires Inv(s) && uid in s.store && WellFormedThread(log)
    ensures Inv(State(s.store, s.threads[uid := log]))
  {
    var s' := State(s.store, s.threads[uid := log]);
    forall t | t in s'.threads
      ensures WellFormedThread(s'.threads[t])
    {
      if t != uid {
        assert s'.threads[t] == s.threads[t];
      }
    }
  }

  lemma InvAfterCreate(s: State, uid: string, p: Record)
    requires Inv(s) && IsPatient(p)
    ensures Inv(State(s.store[uid := p], s.threads))
  {
  }

  lemma FirstLogWellFormed(prompt: string, human: Message, reply: Message)
    requires human.role == Human && reply.role != System
    ensures WellFormedThread([Message(System, prompt), human] + [reply])
  {
  }

  lemma InvAfterLaterTurn(s: State, req: ChatRequest, creator: Option<string>, loads: Loader, model: Model)
    requires Inv(s) && Admissible(req) && req.threadId.value in s.threads
    ensures Inv(Turn(s, req, creator, loads, model).state)
  {
    var uid, human := req.threadId.value, Message(Human, req.message.value);
    var seen := s.threads[uid] + [human];
    var reply := BotNode(seen, model);
    WellFormedAppend(s.threads[uid], human, reply);
    assert seen + [reply] == s.threads[uid] + [human, reply];
    InvAfterInvoke(s, uid, seen + [reply]);
  }

  lemma InvAfterFirstTurn(s: State, req: ChatRequest, creator: Option<string>, loads: Loader, model: Model)
    requires Inv(s) && Admissible(req) && req.threadId.value !in s.threads
    ensures Inv(Turn(s, req, creator, loads, model).state)
  {
    var uid, human := req.threadId.value, Message(Human, req.message.value);
    var p := GeneratePatient(creator, loads);
    var created := State(s.store[uid := p], s.threads);
    InvAfterCreate(s, uid, p);
    var r := RenderPersona(p);
    if r.Ok? {
      var inputs := [Message(System, r.value), human];
      var reply := BotNode(inputs, model);
      FirstLogWellFormed(r.value, human, reply);
      InvAfterInvoke(created, uid, inputs + [reply]);
    }
  }

  /** Every turn keeps the invariant. */
  lemma TurnPreservesInv(s: State, req: ChatRequest, creator: Option<string>, loads: Loader, model: Model)
    requires Inv(s)
    ensures Inv(Turn(s, req, creator, loads, model).state)
  {
    if Admissible(req) {
      if req.threadId.value in s.threads {
        InvAfterLaterTurn(s, req, creator, loads, model);
      } else {
        InvAfterFirstTurn(s, req, creator, loads, model);
      }
    }
  }

  /** The header of every answered turn shows the stored case's own name, never the "Unknown" default. */
  lemma HeaderShowsStoredName(s: State, req: ChatRequest, creator: Option<string>, loads: Loader, model: Model)
    requires Inv(s) && Admissible(req)
    requires Turn(s, req, creator, loads, model).response.Reply?
    ensures var o := Turn(s, req, creator, loads, model);
            var uid := req.threadId.value;
            uid in o.state.store && Some(o.response.patientInfo.name) == Get(o.state.store[uid], "name")
  {
  }

  /** The server: the global `patient_store` and the checkpointer's memory, both starting empty. */
  class ChatServer {
    var patientStore: map<string, Record>
    var checkpoints: map<string, seq<Message>>

    function Snapshot(): State
      reads this
    {
      State(patientStore, checkpoints)
    }

    ghost predicate Valid()
      reads this
    {
      Inv(Snapshot())
    }

    constructor ()
      ensures Valid() && patientStore == map[] && checkpoints == map[]
    {
      patientStore, checkpoints := map[], map[];
    }

    /** `chat()`: the response and the new state are those of one Turn on the old state. */
    method Chat(req: ChatRequest, creator: Option<string>, loads: Loader, model: Model) returns (resp: ChatResponse)
      requires Valid()
      modifies this
      ensures Valid()
      ensures Outcome(resp, Snapshot()) == Turn(old(Snapshot()), req, creator, loads, model)
    {
      ghost var s := Snapshot();
      TurnPreservesInv(s, req, creator, loads, model);
      var uid, msg := req.threadId, req.message;
      if uid.None? || uid.value == [] || msg.None? || msg.value == [] {
        BadRequestChangesNothing(s, req, creator, loads, model, creator, loads, model);
        return BadRequest;
      }
      var human := Message(Human, msg.value);
      if uid.value in checkpoints {
        resp := RunAgent(uid.value, [human], model);
      } else {
        var p := GeneratePatient(creator, loads);
        resp := StartThread(uid.value, human, p, model);
      }
    }

    /** A thread without messages and its newly generated case p: store p, then render its persona;
        a persona that cannot be rendered ends the request with 500 before anything is checkpointed. */
    method StartThread(uid: string, human: Message, p: Record, model: Model) returns (resp: ChatResponse)
      modifies this
      ensures Outcome(resp, Snapshot()) == Open(old(Snapshot()), uid, human, p, model)
    {
      patientStore := patientStore[uid := p];
      var prompt := RenderPersona(p);
      if prompt.Err? {
        return ServerError;
      }
      var inputs := [Message(System, prompt.value)] + [human];
      assert inputs == [Message(System, prompt.value), human];
      resp := RunAgent(uid, inputs, model);
    }

    /** `agent.invoke` on the thread uid: the input step checkpoints the inputs, the bot node's
        message is checkpointed after them, and the response carries the last message's content
        and the header fields. */
    method RunAgent(uid: string, inputs: seq<Message>, model: Model) returns (resp: ChatResponse)
      modifies this
      ensures Outcome(resp, Snapshot()) == Invoke(old(Snapshot()), uid, inputs, model)
    {
      var seen := AddMessages(Checkpoint(checkpoints, uid), inputs);
      checkpoints := checkpoints[uid := seen];
      var reply := BotNode(seen, model);
      checkpoints := checkpoints[uid := AddMessages(checkpoints[uid], [reply])];
      var log := checkpoints[uid];
      resp := Reply(log[|log| - 1].content, Header(patientStore, uid));
    }
  }
}
