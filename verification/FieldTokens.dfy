/** What a token stands for: the resolver behind `$var.` paths, and the checker that flags unknown ones. */
module FieldTokens {
  import opened Options
  import opened JsonValues
  import opened Sequences
  import opened Tokens

  datatype Contact = Contact(
    name: string, phoneNumber: Option<string>, email: Option<string>, location: Option<string>,
    lastInboundAt: Option<string>, windowState: Option<string>, stageName: Option<string>, tagNames: seq<string>,
    customFields: Json, customFieldsDisplay: map<string, string>)

  datatype Agent = Agent(name: string, email: string)

  datatype Message = Message(
    body: Option<string>, timestamp: Option<string>, direction: Option<string>, id: Option<string>,
    externalId: Option<string>, channel: Option<string>, mediaKind: Option<string>, mediaCaption: Option<string>,
    senderName: Option<string>, mediaUrl: Option<string>, hasMedia: bool)

  /** The unread count is kept as the decimal text it is shown as. */
  datatype Conversation = Conversation(
    id: Option<string>, status: Option<string>, assignedUserId: Option<string>, unreadCount: Option<string>,
    lastMessageAt: Option<string>, hasUnread: bool, assignedAgent: Option<Agent>)

  datatype Extras = Extras(
    agent: Option<Agent>, message: Option<Message>, conversation: Option<Conversation>,
    stepOutputs: Option<map<string, Json>>, previousStepId: Option<string>, triggerContact: Option<Contact>)

  const BUILTIN_CONTACT_KEYS: set<string> := {
    "name", "phone", "phoneNumber", "email", "location", "last_inbound_at", "window_state", "stage_name", "tag_names" }
  const BUILTIN_AGENT_KEYS: set<string> := { "name", "email" }
  const MESSAGE_KEYS: set<string> := {
    "body", "timestamp", "direction", "id", "external_id", "channel", "media_kind", "media_caption",
    "sender_name", "media_url", "has_media" }
  const CONVERSATION_KEYS: set<string> := {
    "id", "status", "assigned_user_id", "unread_count", "last_message_at", "has_unread",
    "assigned_agent_name", "assigned_agent_email" }

  /* ---- The leaf resolvers ---- */

  function OrEmpty(o: Option<string>): string {
    if o.Some? then o.value else ""
  }

  function YesNo(b: bool): string {
    if b then "true" else "false"
  }

  function Commas(names: seq<string>): string {
    if names == [] then "" else if |names| == 1 then names[0] else names[0] + ", " + Commas(names[1..])
  }

  /** A custom field: the display overlay first, then a stored string. */
  function CustomField(key: string, c: Contact): string {
    if key in c.customFieldsDisplay then c.customFieldsDisplay[key]
    else if c.customFields.JObject? && key in c.customFields.fields && c.customFields.fields[key].JString? then
      c.customFields.fields[key].s
    else ""
  }

  function ResolveContact(key: string, c: Contact): string {
    match key
    case "name" => c.name
    case "phone" => OrEmpty(c.phoneNumber)
    case "phoneNumber" => OrEmpty(c.phoneNumber)
    case "email" => OrEmpty(c.email)
    case "location" => OrEmpty(c.location)
    case "last_inbound_at" => OrEmpty(c.lastInboundAt)
    case "window_state" => OrEmpty(c.windowState)
    case "stage_name" => OrEmpty(c.stageName)
    case "tag_names" => Commas(c.tagNames)
    case _ => CustomField(key, c)
  }

  function ResolveAgent(key: string, a: Option<Agent>): string {
    if a.None? then ""
    else match key
      case "name" => a.value.name
      case "email" => a.value.email
      case _ => ""
  }

  function ResolveMessage(key: string, m: Option<Message>): string {
    if m.None? then ""
    else match key
      case "body" => OrEmpty(m.value.body)
      case "timestamp" => OrEmpty(m.value.timestamp)
      case "direction" => OrEmpty(m.value.direction)
      case "id" => OrEmpty(m.value.id)
      case "external_id" => OrEmpty(m.value.externalId)
      case "channel" => OrEmpty(m.value.channel)
      case "media_kind" => OrEmpty(m.value.mediaKind)
      case "media_caption" => OrEmpty(m.value.mediaCaption)
      case "sender_name" => OrEmpty(m.value.senderName)
      case "media_url" => OrEmpty(m.value.mediaUrl)
      case "has_media" => YesNo(m.value.hasMedia)
      case _ => ""
  }

  function ResolveConversation(key: string, c: Option<Conversation>): string {
    if c.None? then ""
    else match key
      case "id" => OrEmpty(c.value.id)
      case "status" => OrEmpty(c.value.status)
      case "assigned_user_id" => OrEmpty(c.value.assignedUserId)
      case "unread_count" => OrEmpty(c.value.unreadCount)
      case "last_message_at" => OrEmpty(c.value.lastMessageAt)
      case "has_unread" => YesNo(c.value.hasUnread)
      case "assigned_agent_name" => if c.value.assignedAgent.Some? then c.value.assignedAgent.value.name else ""
      case "assigned_agent_email" => if c.value.assignedAgent.Some? then c.value.assignedAgent.value.email else ""
      case _ => ""
  }

  /** Following keys into a value; arrays and plain values have none. */
  function LookupDeep(v: Option<Json>, path: seq<string>): Option<Json>
    decreases |path|
  {
    if path == [] then v
    else if v.Some? && v.value.JObject? && path[0] in v.value.fields then
      LookupDeep(Some(v.value.fields[path[0]]), path[1..])
    else None
  }

  /** How a looked-up value is shown; `render` is `JSON.stringify` for the structured ones. */
  function StringifyForToken(v: Option<Json>, render: Json -> string): string {
    match v
    case None => ""
    case Some(JNull) => ""
    case Some(JString(s)) => s
    case Some(JNumber(text)) => text
    case Some(JBool(on)) => YesNo(on)
    case Some(j) => render(j)
  }

  function StepOutput(outputs: map<string, Json>, id: string): Option<Json> {
    if id in outputs then Some(outputs[id]) else None
  }

  function TriggerContact(c: Contact, x: Extras): Contact {
    if x.triggerContact.Some? then x.triggerContact.value else c
  }

  function ResolveSender(key: string, c: Contact, x: Extras): string {
    var fromContact := ResolveContact(key, TriggerContact(c, x));
    if fromContact != "" then fromContact else ResolveAgent(key, x.agent)
  }

  function ResolvePreviousStep(path: seq<string>, x: Extras, render: Json -> string): string {
    if x.previousStepId.None? || x.previousStepId.value == "" || x.stepOutputs.None? then ""
    else StringifyForToken(LookupDeep(StepOutput(x.stepOutputs.value, x.previousStepId.value), path), render)
  }

  function ResolveStep(id: string, path: seq<string>, x: Extras, render: Json -> string): string {
    if x.stepOutputs.None? then ""
    else StringifyForToken(LookupDeep(StepOutput(x.stepOutputs.value, id), path), render)
  }

  /* ---- The dispatcher ---- */

  function ResolvePath(segments: seq<string>, c: Contact, x: Extras, render: Json -> string): string
    decreases |segments|
  {
    if segments == [] then ""
    else
      var rest := segments[1..];
      match segments[0]
      case "contact" => if |rest| == 1 then ResolveContact(rest[0], c) else ""
      case "agent" => if |rest| == 1 then ResolveAgent(rest[0], x.agent) else ""
      case "message" =>
        if |rest| == 2 && (rest[0] == "contact" || rest[0] == "sender") then
          ResolveContact(rest[1], TriggerContact(c, x))
        else if |rest| == 1 then ResolveMessage(rest[0], x.message)
        else ""
      case "conversation" => if |rest| == 1 then ResolveConversation(rest[0], x.conversation) else ""
      case "trigger" =>
        if |rest| == 2 && rest[0] == "contact" then ResolveContact(rest[1], TriggerContact(c, x))
        else ResolvePath(rest, c, x, render)
      case "sender" => if |rest| == 1 then ResolveSender(rest[0], c, x) else ""
      case "previousStep" => ResolvePreviousStep(rest, x, render)
      case "steps" => if rest == [] then "" else ResolveStep(rest[0], rest[1..], x, render)
      case _ => ""
  }

  /** `resolveFieldTokens`: every token of the text replaced by what its path resolves to. */
  function ResolveFieldTokens(text: string, c: Contact, x: Extras, render: Json -> string): string {
    Replace(text, 0, path => ResolvePath(Split(path), c, x, render))
  }

  /* ---- Where a path leads, without the recursion ---- */

  datatype Route =
    | OfContact(key: string, ofTrigger: bool)
    | OfAgent(key: string)
    | OfMessage(key: string)
    | OfConversation(key: string)
    | OfSender(key: string)
    | OfPreviousStep(path: seq<string>)
    | OfStep(id: string, path: seq<string>)
    | Nowhere

  /** How many `trigger` segments a path starts with. */
  function Triggers(segments: seq<string>): (n: nat)
    ensures n <= |segments|
    ensures n < |segments| ==> segments[n] != "trigger"
    ensures forall k :: 0 <= k < n ==> segments[k] == "trigger"
  {
    if segments != [] && segments[0] == "trigger" then 1 + Triggers(segments[1..]) else 0
  }

  function BareRoute(s: seq<string>, afterTrigger: bool): Route {
    if |s| == 2 then
      match s[0]
      case "contact" => OfContact(s[1], afterTrigger)
      case "agent" => OfAgent(s[1])
      case "message" => OfMessage(s[1])
      case "conversation" => OfConversation(s[1])
      case "sender" => OfSender(s[1])
      case "previousStep" => OfPreviousStep(s[1..])
      case "steps" => OfStep(s[1], [])
      case _ => Nowhere
    else if |s| == 3 && s[0] == "message" && s[1] in {"contact", "sender"} then OfContact(s[2], true)
    else if |s| >= 1 && s[0] == "previousStep" then OfPreviousStep(s[1..])
    else if |s| >= 3 && s[0] == "steps" then OfStep(s[1], s[2..])
    else Nowhere
  }

  function RouteOf(segments: seq<string>): Route {
    BareRoute(segments[Triggers(segments)..], Triggers(segments) > 0)
  }

  function Follow(r: Route, c: Contact, x: Extras, render: Json -> string): string {
    match r
    case OfContact(key, ofTrigger) => ResolveContact(key, if ofTrigger then TriggerContact(c, x) else c)
    case OfAgent(key) => ResolveAgent(key, x.agent)
    case OfMessage(key) => ResolveMessage(key, x.message)
    case OfConversation(key) => ResolveConversation(key, x.conversation)
    case OfSender(key) => ResolveSender(key, c, x)
    case OfPreviousStep(path) => ResolvePreviousStep(path, x, render)
    case OfStep(id, path) => ResolveStep(id, path, x, render)
    case Nowhere => ""
  }

  /** The dispatcher goes where the route says. */
  lemma {:induction false} ResolveFollowsRoute(s: seq<string>, c: Contact, x: Extras, render: Json -> string)
    ensures ResolvePath(s, c, x, render) == Follow(RouteOf(s), c, x, render)
    decreases |s|
  {
    hide ResolveContact, ResolveAgent, ResolveMessage, ResolveConversation;
    hide ResolveSender, ResolvePreviousStep, ResolveStep;
    if s != [] && s[0] == "trigger" {
      var rest := s[1..];
      ResolveFollowsRoute(rest, c, x, render);
      assert s[Triggers(s)..] == rest[Triggers(rest)..];
      if |rest| == 2 && rest[0] == "contact" {
        assert Triggers(rest) == 0 && rest[0..] == rest;
      } else {
        TriggerMatters(rest);
      }
    } else {
      assert s[0..] == s;
    }
  }

  /** Only a bare contact field takes a trigger into account. */
  lemma TriggerMatters(s: seq<string>)
    requires !(|s| == 2 && s[0] == "contact")
    ensures BareRoute(s[Triggers(s)..], true) == RouteOf(s)
  {
    if Triggers(s) == 0 {
      assert s[0..] == s;
    }
  }

  lemma {:induction false} TriggersInFront(n: nat, s: seq<string>)
    requires s == [] || s[0] != "trigger"
    ensures Triggers(Prefixed(n, s)) == n && Prefixed(n, s)[n..] == s
    decreases n
  {
    if n > 0 {
      TriggersInFront(n - 1, s);
      assert Prefixed(n, s)[1..] == Prefixed(n - 1, s);
    } else {
      assert s[0..] == s;
    }
  }

  /** A path behind `n` more `trigger` segments. */
  function Prefixed(n: nat, s: seq<string>): (r: seq<string>)
    ensures |r| == n + |s|
  {
    if n == 0 then s else ["trigger"] + Prefixed(n - 1, s)
  }

  /**
   * Leading `trigger` segments are transparent: they matter only in front of a bare contact field,
   * where they choose the trigger contact, and how many there are never matters.
   */
  lemma TriggersAreTransparent(n: nat, s: seq<string>, c: Contact, x: Extras, render: Json -> string)
    requires n > 0 && (s == [] || s[0] != "trigger")
    ensures ResolvePath(Prefixed(n, s), c, x, render)
            == if |s| == 2 && s[0] == "contact" then ResolveContact(s[1], TriggerContact(c, x))
               else ResolvePath(s, c, x, render)
    ensures x.triggerContact.None? ==> ResolvePath(Prefixed(n, s), c, x, render) == ResolvePath(s, c, x, render)
  {
    hide ResolveContact, ResolvePath, BareRoute;
    TriggersInFront(n, s);
    TriggersInFront(0, s);
    ResolveFollowsRoute(Prefixed(n, s), c, x, render);
    ResolveFollowsRoute(s, c, x, render);
    if |s| == 2 && s[0] == "contact" {
      BareContact(s);
    } else {
      TriggerMatters(s);
    }
  }

  lemma BareContact(s: seq<string>)
    requires |s| == 2 && s[0] == "contact"
    ensures BareRoute(s, true) == OfContact(s[1], true) && BareRoute(s, false) == OfContact(s[1], false)
  {
  }

  /* ---- The checker ---- */

  /** Which namespaces the checked text may use. */
  datatype Schema = Schema(includeAgent: bool, includeMessage: bool, includeConversation: bool)

  predicate KnownLegacyKey(ns: string, key: string, defs: set<string>, o: Schema) {
    match ns
    case "contact" => key in BUILTIN_CONTACT_KEYS + defs
    case "agent" => o.includeAgent && key in BUILTIN_AGENT_KEYS
    case "message" => o.includeMessage && key in MESSAGE_KEYS
    case "conversation" => o.includeConversation && key in CONVERSATION_KEYS
    case _ => false
  }

  /** One round of the checker's loop: does it let the path pass? `defs` are the custom field keys. */
  predicate Passes(s: seq<string>, defs: set<string>, o: Schema) {
    var contactKeys := BUILTIN_CONTACT_KEYS + defs;
    if |s| < 2 then false
    else if s[0] in {"contact", "agent", "message", "conversation"} && |s| == 2 then KnownLegacyKey(s[0], s[1], defs, o)
    else if s[0] == "message" && s[1] in {"contact", "sender"} && |s| == 3 then s[2] in contactKeys
    else if s[0] == "trigger" && |s| == 3 then KnownLegacyKey(s[1], s[2], defs, o)
    else if |s| == 4 && s[0] == "trigger" && s[1] == "message" && s[2] in {"contact", "sender"} then s[3] in contactKeys
    else if s[0] == "sender" && |s| == 2 then s[1] in contactKeys || (o.includeAgent && s[1] in BUILTIN_AGENT_KEYS)
    else if s[0] == "previousStep" && |s| >= 2 then true
    else s[0] == "steps" && |s| >= 3
  }

  /** The route ends at a leaf resolver on a key it recognises, or at a step's output. */
  predicate Recognised(r: Route, defs: set<string>, o: Schema) {
    match r
    case OfContact(key, _) => key in BUILTIN_CONTACT_KEYS || key in defs
    case OfAgent(key) => o.includeAgent && key in BUILTIN_AGENT_KEYS
    case OfMessage(key) => o.includeMessage && key in MESSAGE_KEYS
    case OfConversation(key) => o.includeConversation && key in CONVERSATION_KEYS
    case OfSender(key) => key in BUILTIN_CONTACT_KEYS || key in defs
    case OfPreviousStep(_) => true
    case OfStep(_, _) => true
    case Nowhere => false
  }

  /** Paths the dispatcher serves although the checker has no case for them. */
  predicate Overlooked(s: seq<string>) {
    || Triggers(s) > 1
    || (Triggers(s) == 1 && RouteOf(s).OfSender?)
    || (Triggers(s) == 1 && (RouteOf(s).OfPreviousStep? || RouteOf(s).OfStep?))
    || WholeOutput(RouteOf(s))
  }

  /** A step's whole output, or the whole of the last one. */
  predicate WholeOutput(r: Route) {
    (r.OfPreviousStep? || r.OfStep?) && r.path == []
  }

  lemma BarePathsChecked(s: seq<string>, defs: set<string>, o: Schema)
    requires s == [] || s[0] != "trigger"
    ensures Passes(s, defs, o) <==> Recognised(BareRoute(s, false), defs, o) && !WholeOutput(BareRoute(s, false))
  {
    assert BUILTIN_AGENT_KEYS <= BUILTIN_CONTACT_KEYS;
    hide BUILTIN_CONTACT_KEYS, BUILTIN_AGENT_KEYS, MESSAGE_KEYS, CONVERSATION_KEYS;
  }

  lemma TriggerPathsChecked(s: seq<string>, defs: set<string>, o: Schema)
    requires s == [] || s[0] != "trigger"
    ensures Passes(["trigger"] + s, defs, o) <==>
            && Recognised(BareRoute(s, true), defs, o)
            && !BareRoute(s, true).OfSender? && !BareRoute(s, true).OfPreviousStep? && !BareRoute(s, true).OfStep?
  {
    var t := ["trigger"] + s;
    assert |t| == 1 + |s| && t[0] == "trigger" && forall k :: 0 <= k < |s| ==> t[k + 1] == s[k];
    if |s| == 2 {
      assert t[1] == s[0] && t[2] == s[1];
    }
    if |s| == 3 {
      assert t[1] == s[0] && t[2] == s[1] && t[3] == s[2];
    }
  }

  lemma TwoTriggersFlagged(s: seq<string>, defs: set<string>, o: Schema)
    requires |s| >= 2 && s[0] == s[1] == "trigger"
    ensures !Passes(s, defs, o)
  {
  }

  /** The checker passes exactly the recognised paths, save the few it overlooks. */
  lemma CheckerIsExact(s: seq<string>, defs: set<string>, o: Schema)
    ensures Passes(s, defs, o) <==> Recognised(RouteOf(s), defs, o) && !Overlooked(s)
  {
    hide Passes, Recognised, BareRoute;
    if s != [] && s[0] == "trigger" {
      var rest := s[1..];
      assert Triggers(s) == 1 + Triggers(rest);
      if Triggers(rest) == 0 {
        assert s == ["trigger"] + rest && s[1..] == rest;
        TriggerPathsChecked(rest, defs, o);
      } else {
        TwoTriggersFlagged(s, defs, o);
      }
    } else {
      assert s[0..] == s;
      BarePathsChecked(s, defs, o);
    }
  }

  /* ---- The loops over a text's tokens ---- */

  function Text(t: string, p: Span): string
    requires p.start + 5 < p.end <= |t|
  {
    t[p.start..p.end]
  }

  /** The tokens of a text from `i` on, as written, in order and with repetitions. */
  function Occurrences(t: string, i: nat): seq<string>
    requires i <= |t|
  {
    var spans := Spans(t, i);
    seq(|spans|, k requires 0 <= k < |spans| => Text(t, spans[k]))
  }

  /** The next token at or after `i`: what `exec` finds. */
  function NextMatch(t: string, i: nat): (r: Option<Span>)
    requires i <= |t|
    ensures r.Some? ==> i <= r.value.start && r.value.start + 5 < r.value.end <= |t|
    ensures Spans(t, i) == match r case None => [] case Some(p) => [p] + Spans(t, p.end)
    decreases |t| - i
  {
    if i == |t| then None
    else
      match MatchAt(t, i)
      case None => NextMatch(t, i + 1)
      case Some(e) => Some(Span(i, e))
  }

  lemma OneMoreOccurrence(done: seq<string>, t: string, i: nat, p: Span)
    requires i <= |t| && NextMatch(t, i) == Some(p)
    ensures done + Occurrences(t, i) == done + [Text(t, p)] + Occurrences(t, p.end)
  {
    hide NextMatch, Spans;
    assert Occurrences(t, i) == [Text(t, p)] + Occurrences(t, p.end);
  }

  /** `extractFieldTokens`: the distinct tokens of a text, in order of first occurrence. */
  method ExtractFieldTokens(text: string) returns (out: seq<string>)
    ensures out == Unique(Occurrences(text, 0))
  {
    out := [];
    var lastIndex, done: seq<string> := 0, [];
    var m := NextMatch(text, 0);
    while m.Some?
      invariant lastIndex <= |text| && m == NextMatch(text, lastIndex)
      invariant done + Occurrences(text, lastIndex) == Occurrences(text, 0)
      invariant out == Unique(done)
      decreases |text| - lastIndex
    {
      var token := Text(text, m.value);
      OneMoreOccurrence(done, text, lastIndex, m.value);
      ghost var before := done;
      done := done + [token];
      assert done[..|done| - 1] == before;
      if token !in out {
        out := out + [token];
      }
      lastIndex := m.value.end;
      m := NextMatch(text, lastIndex);
    }
    assert Occurrences(text, lastIndex) == [];
    assert done == Occurrences(text, 0);
  }

  predicate TokenPasses(token: string, defs: set<string>, o: Schema)
    requires |token| > 5
  {
    Passes(Split(token[5..]), defs, o)
  }

  /** The tokens whose paths do not pass. */
  function Flagged(tokens: seq<string>, defs: set<string>, o: Schema): seq<string>
    requires forall t <- tokens :: |t| > 5
  {
    if tokens == [] then []
    else if TokenPasses(tokens[0], defs, o) then Flagged(tokens[1..], defs, o)
    else [tokens[0]] + Flagged(tokens[1..], defs, o)
  }

  lemma {:induction false} FlaggedMembers(tokens: seq<string>, defs: set<string>, o: Schema, t: string)
    requires forall t <- tokens :: |t| > 5
    ensures t in Flagged(tokens, defs, o) <==> t in tokens && !TokenPasses(t, defs, o)
  {
    hide TokenPasses;
    if tokens != [] {
      FlaggedMembers(tokens[1..], defs, o, t);
      assert tokens == [tokens[0]] + tokens[1..];
    }
  }

  lemma OccurrencesAreLong(t: string)
    ensures forall x <- Unique(Occurrences(t, 0)) :: |x| > 5
  {
    forall x <- Unique(Occurrences(t, 0))
      ensures |x| > 5
    {
      assert x in Occurrences(t, 0);
    }
  }

  lemma {:induction false} FlaggedSnoc(ts: seq<string>, t: string, defs: set<string>, o: Schema)
    requires (forall x <- ts :: |x| > 5) && |t| > 5
    ensures forall x <- ts + [t] :: |x| > 5
    ensures Flagged(ts + [t], defs, o)
            == Flagged(ts, defs, o) + if TokenPasses(t, defs, o) then [] else [t]
  {
    hide TokenPasses;
    if ts == [] {
      assert ts + [t] == [t] && [t][1..] == [];
    } else {
      assert (ts + [t])[1..] == ts[1..] + [t];
      FlaggedSnoc(ts[1..], t, defs, o);
    }
  }

  /** `findUnknownTokens`: the distinct tokens of a text that the checker does not let pass. */
  method FindUnknownTokens(text: string, defs: set<string>, o: Schema) returns (out: seq<string>)
    ensures forall x <- Unique(Occurrences(text, 0)) :: |x| > 5
    ensures out == Flagged(Unique(Occurrences(text, 0)), defs, o)
  {
    hide TokenPasses;
    out := [];
    OccurrencesAreLong(text);
    var tokens := ExtractFieldTokens(text);
    for i := 0 to |tokens|
      invariant forall x <- tokens[..i] :: |x| > 5
      invariant out == Flagged(tokens[..i], defs, o)
    {
      var token := tokens[i];
      FlaggedSnoc(tokens[..i], token, defs, o);
      assert tokens[..i + 1] == tokens[..i] + [token];
      if !TokenPasses(token, defs, o) {
        out := out + [token];
      }
    }
    assert tokens[..|tokens|] == tokens;
  }

  /** A token of a text that is not flagged is replaced by what a recognised route yields. */
  lemma UnflaggedTokensAreRecognised(
    text: string, i: nat, defs: set<string>, o: Schema, c: Contact, x: Extras, render: Json -> string)
    requires i <= |text| && MatchAt(text, i).Some?
    requires forall t <- Unique(Occurrences(text, 0)) :: |t| > 5
    requires text[i..MatchAt(text, i).value] !in Flagged(Unique(Occurrences(text, 0)), defs, o)
    ensures var path := text[i + 5..MatchAt(text, i).value];
            && Recognised(RouteOf(Split(path)), defs, o) && !Overlooked(Split(path))
            && ResolvePath(Split(path), c, x, render) == Follow(RouteOf(Split(path)), c, x, render)
  {
    hide Passes, Recognised, ResolvePath, Follow, RouteOf, Overlooked, MatchAt;
    var e := MatchAt(text, i).value;
    SpansAreAllTokens(text, 0, i);
    var p :| p in Spans(text, 0) && p.start == i;
    var k :| 0 <= k < |Spans(text, 0)| && Spans(text, 0)[k] == p;
    assert Occurrences(text, 0)[k] == text[i..e];
    assert text[i..e][5..] == text[i + 5..e];
    FlaggedMembers(Unique(Occurrences(text, 0)), defs, o, text[i..e]);
    CheckerIsExact(Split(text[i + 5..e]), defs, o);
    ResolveFollowsRoute(Split(text[i + 5..e]), c, x, render);
  }
}
