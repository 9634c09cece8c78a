/** What the documented tokens show, said of whole paths and literal names, and which keys are served at all. */
module TokenMeaning {
  import opened Options
  import opened JsonValues
  import opened Tokens
  import opened FieldTokens

  /* ---- The pattern's alphabet ---- */

  const LOWER := "abcdefghijklmnopqrstuvwxyz"
  const UPPER := "ABCDEFGHIJKLMNOPQRSTUVWXYZ"
  const DIGITS := "0123456789"

  lemma LowerLetters(c: char)
    ensures c in LOWER <==> 'a' <= c <= 'z'
  {
  }

  lemma UpperLetters(c: char)
    ensures c in UPPER <==> 'A' <= c <= 'Z'
  {
  }

  lemma Digits(c: char)
    ensures c in DIGITS <==> '0' <= c <= '9'
  {
  }

  /** The characters a segment may start with and continue with. */
  lemma Alphabet(c: char)
    ensures IsStart(c) <==> c in LOWER || c in UPPER || c == '_'
    ensures IsWord(c) <==> c in LOWER || c in UPPER || c in DIGITS || c == '_'
  {
    LowerLetters(c);
    UpperLetters(c);
    Digits(c);
    hide LOWER, UPPER, DIGITS;
  }

  /** A token starts with its literal prefix, and not directly after a letter, digit or underscore. */
  lemma TokensStart(t: string, i: nat)
    requires i <= |t|
    ensures PrefixAt(t, i) <==> "$var." <= t[i..] && (i == 0 || t[i - 1] !in LOWER + UPPER + DIGITS + "_")
  {
    hide LOWER, UPPER, DIGITS, IsWord;
    if i > 0 {
      Alphabet(t[i - 1]);
    }
    if i + 5 <= |t| {
      assert t[i..][..5] == t[i..i + 5];
    }
  }

  /* ---- Which keys are served ---- */

  /** The built-in contact keys are those that no custom field can take over. */
  lemma BuiltinContactKeys(key: string)
    ensures key in BUILTIN_CONTACT_KEYS <==>
            forall c: Contact, j: Json, shown: map<string, string> ::
              ResolveContact(key, c.(customFields := j, customFieldsDisplay := shown)) == ResolveContact(key, c)
  {
    if key !in BUILTIN_CONTACT_KEYS {
      var c := Contact("", None, None, None, None, None, None, [], JNull, map[]);
      assert ResolveContact(key, c.(customFields := JNull, customFieldsDisplay := map[key := "x"])) == "x";
      assert ResolveContact(key, c) == "";
    }
  }

  lemma AgentKeys(key: string)
    ensures key in BUILTIN_AGENT_KEYS <==> exists a :: ResolveAgent(key, Some(a)) != ""
  {
    var full := Agent("name", "email");
    assert key in BUILTIN_AGENT_KEYS ==> ResolveAgent(key, Some(full)) != "";
  }

  lemma MessageKeys(key: string)
    ensures key in MESSAGE_KEYS <==> exists m :: ResolveMessage(key, Some(m)) != ""
  {
    var v := Some("x");
    var full := Message(v, v, v, v, v, v, v, v, v, v, true);
    assert key in MESSAGE_KEYS ==> ResolveMessage(key, Some(full)) != "";
  }

  lemma ConversationKeys(key: string)
    ensures key in CONVERSATION_KEYS <==> exists c :: ResolveConversation(key, Some(c)) != ""
  {
    var v := Some("x");
    var full := Conversation(v, v, v, v, v, true, Some(Agent("name", "email")));
    assert key in CONVERSATION_KEYS ==> ResolveConversation(key, Some(full)) != "";
  }

  /* ---- What each token shows ---- */

  /** What an optional text shows: nothing when it is absent. */
  ghost predicate ShowsText(out: string, v: Option<string>) {
    v == Some(out) || (v.None? && out == "")
  }

  /** Fields of the four contexts are two segments. */
  lemma FieldPaths(key: string, c: Contact, x: Extras, render: Json -> string)
    ensures ResolvePath(["contact", key], c, x, render) == ResolveContact(key, c)
    ensures ResolvePath(["agent", key], c, x, render) == ResolveAgent(key, x.agent)
    ensures ResolvePath(["message", key], c, x, render) == ResolveMessage(key, x.message)
    ensures ResolvePath(["conversation", key], c, x, render) == ResolveConversation(key, x.conversation)
  {
    hide ResolveContact, ResolveAgent, ResolveMessage, ResolveConversation;
  }

  lemma ContactTokens(c: Contact)
    ensures ResolveContact("name", c) == c.name
    ensures ShowsText(ResolveContact("phone", c), c.phoneNumber)
    ensures ShowsText(ResolveContact("phoneNumber", c), c.phoneNumber)
    ensures ShowsText(ResolveContact("email", c), c.email)
    ensures ShowsText(ResolveContact("location", c), c.location)
    ensures ShowsText(ResolveContact("last_inbound_at", c), c.lastInboundAt)
    ensures ShowsText(ResolveContact("window_state", c), c.windowState)
    ensures ShowsText(ResolveContact("stage_name", c), c.stageName)
    ensures c.tagNames == [] ==> ResolveContact("tag_names", c) == ""
  {
  }

  /** Tag names are listed in order, a comma and a blank between them. */
  lemma TagNames(c: Contact, more: string)
    ensures |c.tagNames| == 1 ==> ResolveContact("tag_names", c) == c.tagNames[0]
    ensures c.tagNames != [] ==> ResolveContact("tag_names", c.(tagNames := c.tagNames + [more]))
                                 == ResolveContact("tag_names", c) + ", " + more
  {
    if c.tagNames != [] {
      CommasGrow(c.tagNames, more);
    }
  }

  lemma {:induction false} CommasGrow(names: seq<string>, more: string)
    requires names != []
    ensures Commas(names + [more]) == Commas(names) + ", " + more
  {
    if |names| == 1 {
      assert (names + [more])[1..] == [more];
    } else {
      CommasGrow(names[1..], more);
      assert (names + [more])[1..] == names[1..] + [more];
    }
  }

  /** A custom field shows its label when it has one, else its stored text; other stored values show nothing. */
  lemma CustomTokens(key: string, c: Contact)
    requires key !in BUILTIN_CONTACT_KEYS
    ensures var out := ResolveContact(key, c);
            if key in c.customFieldsDisplay then out == c.customFieldsDisplay[key]
            else if c.customFields.JObject? && key in c.customFields.fields && c.customFields.fields[key].JString? then
              c.customFields.fields[key] == JString(out)
            else out == ""
  {
  }

  lemma AgentTokens(a: Agent)
    ensures ResolveAgent("name", Some(a)) == a.name && ResolveAgent("email", Some(a)) == a.email
  {
  }

  lemma MessageTokens(m: Message)
    ensures ShowsText(ResolveMessage("body", Some(m)), m.body)
    ensures ShowsText(ResolveMessage("timestamp", Some(m)), m.timestamp)
    ensures ShowsText(ResolveMessage("direction", Some(m)), m.direction)
    ensures ShowsText(ResolveMessage("id", Some(m)), m.id)
    ensures ShowsText(ResolveMessage("external_id", Some(m)), m.externalId)
    ensures ShowsText(ResolveMessage("channel", Some(m)), m.channel)
    ensures ShowsText(ResolveMessage("media_kind", Some(m)), m.mediaKind)
    ensures ShowsText(ResolveMessage("media_caption", Some(m)), m.mediaCaption)
    ensures ShowsText(ResolveMessage("sender_name", Some(m)), m.senderName)
    ensures ShowsText(ResolveMessage("media_url", Some(m)), m.mediaUrl)
    ensures ResolveMessage("has_media", Some(m)) == if m.hasMedia then "true" else "false"
  {
  }

  lemma ConversationTokens(v: Conversation)
    ensures ShowsText(ResolveConversation("id", Some(v)), v.id)
    ensures ShowsText(ResolveConversation("status", Some(v)), v.status)
    ensures ShowsText(ResolveConversation("assigned_user_id", Some(v)), v.assignedUserId)
    ensures ShowsText(ResolveConversation("unread_count", Some(v)), v.unreadCount)
    ensures ShowsText(ResolveConversation("last_message_at", Some(v)), v.lastMessageAt)
    ensures ResolveConversation("has_unread", Some(v)) == if v.hasUnread then "true" else "false"
    ensures var name := ResolveConversation("assigned_agent_name", Some(v));
            var email := ResolveConversation("assigned_agent_email", Some(v));
            match v.assignedAgent case Some(a) => name == a.name && email == a.email case None => name == email == ""
  {
  }

  /** Without the context a namespace needs, its tokens show nothing. */
  lemma AbsentContext(key: string, path: seq<string>, c: Contact, x: Extras, render: Json -> string)
    ensures x.agent.None? ==> ResolvePath(["agent", key], c, x, render) == ""
    ensures x.message.None? ==> ResolvePath(["message", key], c, x, render) == ""
    ensures x.conversation.None? ==> ResolvePath(["conversation", key], c, x, render) == ""
    ensures x.stepOutputs.None? || x.previousStepId.None? || x.previousStepId == Some("") ==>
              ResolvePath(["previousStep"] + path, c, x, render) == ""
    ensures x.stepOutputs.None? ==> ResolvePath(["steps"] + path, c, x, render) == ""
  {
  }

  /** Who triggered the run: a contact of its own when there is one, whomever the step addresses. */
  lemma TriggeringContact(key: string, c: Contact, x: Extras, who: Contact, render: Json -> string)
    requires who == if x.triggerContact.Some? then x.triggerContact.value else c
    ensures ResolvePath(["trigger", "contact", key], c, x, render) == ResolvePath(["contact", key], who, x, render)
    ensures ResolvePath(["message", "contact", key], c, x, render) == ResolvePath(["contact", key], who, x, render)
    ensures ResolvePath(["message", "sender", key], c, x, render) == ResolvePath(["contact", key], who, x, render)
    ensures var ofContact := ResolvePath(["contact", key], who, x, render);
            ResolvePath(["sender", key], c, x, render)
            == if ofContact != "" then ofContact else ResolvePath(["agent", key], c, x, render)
  {
    hide ResolveContact, ResolveAgent;
  }

  /* ---- Step outputs ---- */

  /** One key further in: only objects can be entered, never arrays or plain values. */
  lemma {:induction false} LookupGoesIn(v: Option<Json>, path: seq<string>, key: string, w: Json)
    ensures LookupDeep(v, []) == v
    ensures LookupDeep(v, path + [key]) == Some(w) <==>
            exists fields :: LookupDeep(v, path) == Some(JObject(fields)) && key in fields && fields[key] == w
    decreases |path|
  {
    if path == [] {
      assert path + [key] == [key];
      assert [key][1..] == [];
      if v.Some? && v.value.JObject? {
        assert v == Some(JObject(v.value.fields));
      }
    } else {
      assert (path + [key])[1..] == path[1..] + [key];
      var next :=
        if v.Some? && v.value.JObject? && path[0] in v.value.fields then Some(v.value.fields[path[0]]) else None;
      LookupGoesIn(next, path[1..], key, w);
      if next.None? {
        NothingInside(path[1..]);
        NothingInside(path[1..] + [key]);
      }
    }
  }

  lemma NothingInside(path: seq<string>)
    ensures LookupDeep(None, path) == None
  {
  }

  /** What a token into a step's output shows, by the kind of value that lies there. */
  lemma StepTokens(id: string, path: seq<string>, c: Contact, x: Extras, o: map<string, Json>, render: Json -> string)
    requires x.stepOutputs == Some(o)
    ensures var there := if id in o then LookupDeep(Some(o[id]), path) else None;
            var out := ResolvePath(["steps", id] + path, c, x, render);
            && (there.None? || there == Some(JNull) ==> out == "")
            && (forall s :: there == Some(JString(s)) ==> out == s)
            && (forall s :: there == Some(JNumber(s)) ==> out == s)
            && (there == Some(JBool(true)) ==> out == "true") && (there == Some(JBool(false)) ==> out == "false")
            && (there.Some? && (there.value.JArray? || there.value.JObject?) ==> out == render(there.value))
    ensures x.previousStepId == Some(id) && id != "" ==>
              ResolvePath(["previousStep"] + path, c, x, render) == ResolvePath(["steps", id] + path, c, x, render)
  {
    hide LookupDeep;
    assert (["steps", id] + path)[1..] == [id] + path && ([id] + path)[1..] == path;
    assert (["previousStep"] + path)[1..] == path;
    if id !in o {
      NothingInside(path);
    }
  }
}
