/** The creator's post-processing (`generate_patient` after the model call) and the actor's persona
    text (`get_system_prompt`). */
module Patient {
  import opened Wrappers
  import opened Strings
  import opened Json
  import opened Fences

  const Symptoms := "visible_symptoms"

  /** The fixed case returned whenever generation fails in any way. */
  const DefaultPatient: Record := [
    Member("name", JStr("Alex")),
    Member("age", JInt(30)),
    Member("sex", JStr("Male")),
    Member("disease", JStr("Migraine")),
    Member(Symptoms, JArr([JStr("Severe headache"), JStr("Sensitivity to light")])),
    Member("secret_symptom", JStr("Nausea")),
    Member("red_flags", JStr("Vision loss")),
    Member("treatment", JArr([JStr("Triptans")])),
    Member("personality", JStr("Stoic"))
  ]

  predicate BareString(v: Option<Json>) {
    v.Some? && v.value.JStr?
  }

  /** What every stored case satisfies: it has a name and a disease, and its symptoms are not a bare string. */
  predicate IsPatient(p: Record) {
    Has(p, "name") && Has(p, "disease") && !BareString(Get(p, Symptoms))
  }

  /** Looking up a key of the default case finds the value written next to it. */
  lemma DefaultGet(i: nat)
    requires i < |DefaultPatient|
    ensures Get(DefaultPatient, DefaultPatient[i].key) == Some(DefaultPatient[i].value)
  {
    GetFirst(DefaultPatient, i, DefaultPatient[i].key);
  }

  lemma DefaultHasNameAndDisease()
    ensures Has(DefaultPatient, "name") && Has(DefaultPatient, "disease")
  {
    DefaultGet(0);
    DefaultGet(3);
  }

  lemma DefaultSymptomsAreAList()
    ensures !BareString(Get(DefaultPatient, Symptoms))
  {
    DefaultGet(4);
  }

  lemma DefaultIsPatient()
    ensures IsPatient(DefaultPatient)
  {
    DefaultHasNameAndDisease();
    DefaultSymptomsAreAList();
  }

  /** A str under "visible_symptoms" is wrapped into a one-element list, in place; nothing else
      changes, and a record whose symptoms are anything but a str is returned as it is. */
  function Normalise(d: Record): (r: Record)
    ensures Keys(r) == Keys(d)
    ensures forall k :: Has(r, k) <==> Has(d, k)
    ensures forall k :: k != Symptoms ==> Get(r, k) == Get(d, k)
    ensures BareString(Get(d, Symptoms)) ==> Get(r, Symptoms) == Some(JArr([Get(d, Symptoms).value]))
    ensures !BareString(Get(d, Symptoms)) ==> r == d
    ensures !BareString(Get(r, Symptoms))
  {
    match Get(d, Symptoms)
    case Some(JStr(s)) => Put(d, Symptoms, JArr([JStr(s)]))
    case _ => d
  }

  lemma NormaliseIdempotent(d: Record)
    ensures Normalise(Normalise(d)) == Normalise(d)
  {
  }

  /** `generate_patient()` once the model has answered (`reply`, None when the call raised): the
      parsed dict, normalised, when it is a dict with a name and a disease; the default case on
      every other outcome, since each of them raises inside the `try`. */
  function GeneratePatient(reply: Option<string>, loads: Loader): (p: Record)
    ensures IsPatient(p)
  {
    match reply
    case None => DefaultIsPatient(); DefaultPatient
    case Some(text) => FromParsed(ParseJson(text, loads))
  }

  /** A parse result the generator keeps: a dict with a name and a disease. */
  predicate AcceptedValue(parsed: Result<Json, string>) {
    parsed.Ok? && parsed.value.JObj?
    && Has(parsed.value.members, "name") && Has(parsed.value.members, "disease")
  }

  /** What the `try` block makes of `parse_json`'s outcome: the normalised dict when it is
      accepted, the default case when anything in the block raises. */
  function FromParsed(parsed: Result<Json, string>): (p: Record)
    ensures IsPatient(p)
    ensures AcceptedValue(parsed) ==> p == Normalise(parsed.value.members)
    ensures !AcceptedValue(parsed) ==> p == DefaultPatient
  {
    DefaultIsPatient();
    match parsed
    case Ok(JObj(d)) =>
      var q := Normalise(d);
      if Has(q, "name") && Has(q, "disease") then q else DefaultPatient
    case _ => DefaultPatient
  }

  /** The generator keeps the model's case exactly when the reply parses to a dict with a name and
      a disease; it then differs from the parsed dict only in the wrapped symptoms. */
  predicate Accepted(reply: Option<string>, loads: Loader) {
    reply.Some? && AcceptedValue(ParseJson(reply.value, loads))
  }

  lemma GenerateKeepsAcceptedCase(reply: Option<string>, loads: Loader)
    requires Accepted(reply, loads)
    ensures var d := ParseJson(reply.value, loads).value.members;
            var p := GeneratePatient(reply, loads);
            Keys(p) == Keys(d) && (forall k :: k != Symptoms ==> Get(p, k) == Get(d, k))
            && (BareString(Get(d, Symptoms)) ==> Get(p, Symptoms) == Some(JArr([Get(d, Symptoms).value])))
  {
  }

  lemma GenerateFallsBack(reply: Option<string>, loads: Loader)
    requires !Accepted(reply, loads)
    ensures GeneratePatient(reply, loads) == DefaultPatient
  {
  }

  /** A reply without any `{` parses to the empty dict, which has no name: the default case. */
  lemma NoBraceGivesDefault(text: string, loads: Loader)
    requires '{' !in Clean(text)
    ensures GeneratePatient(Some(text), loads) == DefaultPatient
  {
    assert !Has([], "name");
  }

  /** A reply with a `{` but no `}` after it sends the empty text to the parser, which rejects it:
      the default case again. */
  lemma UnclosedBraceGivesDefault(text: string, loads: Loader)
    requires '{' in Clean(text) && '}' !in Clean(text)[Find(Clean(text), '{')..]
    requires loads([]).Err?
    ensures GeneratePatient(Some(text), loads) == DefaultPatient
  {
    UnclosedBraceSlice(text);
    assert ParseJson(text, loads).Err?;
    GenerateFallsBack(Some(text), loads);
  }

  /** The values `", ".join` accepts: a list of str only, a str, or a dict (whose keys are str). */
  predicate Joinable(v: Json) {
    match v
    case JArr(items) => forall i :: 0 <= i < |items| ==> items[i].JStr?
    case JStr(_) => true
    case JObj(_) => true
    case _ => false
  }

  /** `", ".join(v)`: a list must hold only str; a str is joined character by character; a dict
      joins its keys; any other value cannot be joined. */
  function JoinValue(v: Json): (r: Option<string>)
    ensures r.Some? <==> Joinable(v)
    ensures v.JArr? && r.Some? ==>
      Embeds(r.value, seq(|v.items|, i requires 0 <= i < |v.items| => v.items[i].s))
    ensures v.JObj? ==> r.Some? && Embeds(r.value, Keys(v.members))
  {
    match v
    case JArr(items) =>
      if forall i :: 0 <= i < |items| ==> items[i].JStr? then
        var parts := seq(|items|, i requires 0 <= i < |items| => items[i].s);
        JoinEmbeds(", ", parts);
        Some(Join(", ", parts))
      else None
    case JStr(s) => Some(Join(", ", seq(|s|, i requires 0 <= i < |s| => [s[i]])))
    case JObj(members) =>
      JoinEmbeds(", ", Keys(members));
      Some(Join(", ", Keys(members)))
    case _ => None
  }

  /** A list of str joins to its items, in order, with ", " between them. */
  lemma JoinListOfStrings(xs: seq<string>)
    ensures JoinValue(JArr(seq(|xs|, i requires 0 <= i < |xs| => JStr(xs[i])))) == Some(Join(", ", xs))
  {
    var v := JArr(seq(|xs|, i requires 0 <= i < |xs| => JStr(xs[i])));
    assert seq(|v.items|, i requires 0 <= i < |v.items| => v.items[i].s) == xs;
  }

  /** Why a persona cannot be rendered. */
  datatype Fault = MissingKey(key: string) | NotJoinable(key: string)

  function Field(p: Record, k: string): (r: Result<string, Fault>)
    ensures r.Ok? <==> Has(p, k)
  {
    match Get(p, k)
    case Some(v) => Ok(Str(v))
    case None => Err(MissingKey(k))
  }

  function Joined(p: Record, k: string): (r: Result<string, Fault>)
    ensures r.Ok? <==> Has(p, k) && Joinable(Get(p, k).value)
  {
    match Get(p, k)
    case None => Err(MissingKey(k))
    case Some(v) =>
      match JoinValue(v)
      case Some(s) => Ok(s)
      case None => Err(NotJoinable(k))
  }

  /** The literal text around the eight holes of the persona template. */
  const PersonaText: seq<string> := [
    "\n    ROLE: You are ",
    ", ",
    " years old, ",
    ".\n    CONDITION: ",
    " (NEVER reveal the name).\n    SYMPTOMS: ",
    ".\n    HIDDEN: ",
    " (Reveal only if asked).\n    \n    BEHAVIOR RULES:\n"
    + "    1. BE CONCISE: Keep answers short (1-2 sentences max).\n"
    + "    2. BE DIRECT: Do not tell stories. Do not use flowery language.\n"
    + "    3. START: State your main symptom clearly.\n"
    + "    4. HISTORY: Only answer history questions if asked.\n"
    + "    5. CURE: If treated correctly (",
    "), say \"Thank you, that helps.\" and end.\n    6. TONE: ",
    ". Human, but straight to the point.\n    "
  ]

  predicate Renderable(p: Record) {
    Has(p, "name") && Has(p, "age") && Has(p, "sex") && Has(p, "disease")
    && Has(p, Symptoms) && Joinable(Get(p, Symptoms).value)
    && Has(p, "secret_symptom")
    && Has(p, "treatment") && Joinable(Get(p, "treatment").value)
    && Has(p, "personality")
  }

  /** What the rendered text shows for each key: the value printed by `str`, the two lists joined. */
  function PersonaValues(p: Record): seq<string>
    requires Renderable(p)
  {
    [Str(Get(p, "name").value), Str(Get(p, "age").value), Str(Get(p, "sex").value),
     Str(Get(p, "disease").value), JoinValue(Get(p, Symptoms).value).value,
     Str(Get(p, "secret_symptom").value), JoinValue(Get(p, "treatment").value).value,
     Str(Get(p, "personality").value)]
  }

  /** `get_system_prompt(p)`: raises exactly when one of the eight keys is missing or one of the two
      lists cannot be joined; otherwise the text shows name, age, sex, disease, symptoms, secret
      symptom, treatment and personality, in that order. */
  function RenderPersona(p: Record): (r: Result<string, Fault>)
    ensures r.Ok? <==> Renderable(p)
    ensures r.Ok? ==> Embeds(r.value, PersonaValues(p))
    ensures r.Ok? ==> r.value == Fill(PersonaText, PersonaValues(p))
  {
    var name :- Field(p, "name");
    var age :- Field(p, "age");
    var sex :- Field(p, "sex");
    var disease :- Field(p, "disease");
    var symptoms :- Joined(p, Symptoms);
    var secret :- Field(p, "secret_symptom");
    var treatment :- Joined(p, "treatment");
    var personality :- Field(p, "personality");
    var values := [name, age, sex, disease, symptoms, secret, treatment, personality];
    assert values == PersonaValues(p);
    FillEmbeds(PersonaText, values);
    Ok(Fill(PersonaText, values))
  }

  /** A rendered persona begins with the ROLE line's opening words and ends with the TONE rule's
      closing words, and is exactly as long as the template's text and the eight values together. */
  lemma PersonaFrame(p: Record)
    requires Renderable(p)
    ensures StartsWith(RenderPersona(p).value, "\n    ROLE: You are ")
    ensures EndsWith(RenderPersona(p).value, ". Human, but straight to the point.\n    ")
    ensures |RenderPersona(p).value| == TotalLength(PersonaText) + TotalLength(PersonaValues(p))
  {
    FillEnds(PersonaText, PersonaValues(p));
    FillLength(PersonaText, PersonaValues(p));
    assert PersonaText[0] == "\n    ROLE: You are ";
    assert PersonaText[|PersonaText| - 1] == ". Human, but straight to the point.\n    ";
  }

  /** The default case always renders. */
  lemma DefaultHasPersonaKeys()
    ensures Has(DefaultPatient, "name") && Has(DefaultPatient, "age") && Has(DefaultPatient, "sex")
    ensures Has(DefaultPatient, "disease") && Has(DefaultPatient, "secret_symptom")
    ensures Has(DefaultPatient, "personality")
  {
    DefaultGet(0); DefaultGet(1); DefaultGet(2); DefaultGet(3); DefaultGet(5); DefaultGet(8);
  }

  lemma DefaultSymptoms()
    ensures Get(DefaultPatient, Symptoms) == Some(JArr([JStr("Severe headache"), JStr("Sensitivity to light")]))
  {
    DefaultGet(4);
  }

  lemma DefaultTreatment()
    ensures Get(DefaultPatient, "treatment") == Some(JArr([JStr("Triptans")]))
  {
    DefaultGet(7);
  }

  lemma DefaultSymptomsJoin()
    ensures Has(DefaultPatient, Symptoms) && Joinable(Get(DefaultPatient, Symptoms).value)
  {
    DefaultSymptoms();
    StoredListJoins(DefaultPatient, Symptoms, [JStr("Severe headache"), JStr("Sensitivity to light")]);
  }

  lemma DefaultTreatmentJoins()
    ensures Has(DefaultPatient, "treatment") && Joinable(Get(DefaultPatient, "treatment").value)
  {
    DefaultTreatment();
    StoredListJoins(DefaultPatient, "treatment", [JStr("Triptans")]);
  }

  lemma StoredListJoins(p: Record, k: string, items: seq<Json>)
    requires Get(p, k) == Some(JArr(items)) && forall i :: 0 <= i < |items| ==> items[i].JStr?
    ensures Has(p, k) && Joinable(Get(p, k).value)
  {
  }

  lemma DefaultRenders()
    ensures RenderPersona(DefaultPatient).Ok?
  {
    DefaultHasPersonaKeys();
    DefaultSymptomsJoin();
    DefaultTreatmentJoins();
  }

  /** The generator does not check for "treatment": a case without it is kept, and then the
      persona cannot be rendered. */
  lemma MissingTreatmentIsKept(reply: Option<string>, loads: Loader)
    requires Accepted(reply, loads) && !Has(ParseJson(reply.value, loads).value.members, "treatment")
    ensures !Has(GeneratePatient(reply, loads), "treatment")
    ensures RenderPersona(GeneratePatient(reply, loads)).Err?
  {
    KeptWithoutTreatment(ParseJson(reply.value, loads));
  }

  lemma KeptWithoutTreatment(parsed: Result<Json, string>)
    requires AcceptedValue(parsed) && !Has(parsed.value.members, "treatment")
    ensures !Has(FromParsed(parsed), "treatment")
    ensures RenderPersona(FromParsed(parsed)).Err?
  {
    NoTreatmentNoPersona(FromParsed(parsed));
  }

  lemma NoTreatmentNoPersona(p: Record)
    requires !Has(p, "treatment")
    ensures RenderPersona(p).Err?
  {
    assert !Renderable(p);
  }

  /** r shows the letter s[i] at index 3 * i, followed by ", " unless it is the last letter. */
  predicate SpelledAt(r: string, s: string, i: int) {
    0 <= i < |s| && 3 * i < |r| && r[3 * i] == s[i]
    && (i + 1 < |s| ==> 3 * i + 2 < |r| && r[3 * i + 1] == ',' && r[3 * i + 2] == ' ')
  }

  /** Joining one-letter parts with ", " spells out their letters. */
  lemma {:induction false} JoinLetters(s: string, parts: seq<string>)
    requires |parts| == |s| && forall i :: 0 <= i < |s| ==> parts[i] == [s[i]]
    ensures |s| == 0 ==> Join(", ", parts) == []
    ensures |s| > 0 ==> |Join(", ", parts)| == 3 * |s| - 2
    ensures forall i :: 0 <= i < |s| ==> SpelledAt(Join(", ", parts), s, i)
    decreases |s|
  {
    var r := Join(", ", parts);
    if |s| == 1 {
      assert r == [s[0]];
    } else if |s| > 1 {
      JoinLetters(s[1..], parts[1..]);
      var rest := Join(", ", parts[1..]);
      assert r == [s[0]] + ", " + rest;
      forall i | 0 <= i < |s|
        ensures SpelledAt(r, s, i)
      {
        if i > 0 {
          assert SpelledAt(rest, s[1..], i - 1);
        }
      }
    }
  }

  /** A treatment given as a str is spelled out letter by letter in the persona: every letter in
      order, with ", " between each two, and nothing else. */
  lemma StringTreatmentIsSpelledOut(s: string)
    ensures JoinValue(JStr(s)).Some?
    ensures |s| == 0 ==> JoinValue(JStr(s)).value == []
    ensures |s| > 0 ==> |JoinValue(JStr(s)).value| == 3 * |s| - 2
    ensures forall i :: 0 <= i < |s| ==> SpelledAt(JoinValue(JStr(s)).value, s, i)
  {
    var parts := seq(|s|, i requires 0 <= i < |s| => [s[i]]);
    assert JoinValue(JStr(s)) == Some(Join(", ", parts));
    JoinLetters(s, parts);
  }
}
