/** A run of the re-encryption over the rows that hold secrets, and what it keeps. */
module RotationRun {
  import opened Options
  import opened JsonValues
  import opened Rotation

  /** The tables whose rows keep secrets in a JSON object. */
  datatype Table = ChannelConnection | MetaConnection | PendingSubscriptionRelease

  datatype Row =
    | SecretsRow(table: Table, id: string, secrets: Json)
    | WebhookRow(id: string, secret: string)
    | WorkflowRow(id: string, trigger: Json, graph: Json)

  type Fields = map<string, Json>

  /* ---- Which fields are covered ---- */

  function Covered(t: Table): set<string> {
    match t
    case ChannelConnection => {"accessToken", "appSecret", "pageAccessToken", "igAccessToken"}
    case MetaConnection => {"appSecret", "systemUserToken"}
    case PendingSubscriptionRelease => {"accessToken", "appSecret"}
  }

  /** The fields of a JSON object; anything else has none. */
  function FieldsOf(j: Json): Fields {
    if j.JObject? then j.fields else map[]
  }

  predicate HasString(f: Fields, key: string) {
    key in f && f[key].JString?
  }

  /** A request node with a configuration object: the kind of node that holds secrets. */
  predicate IsRequestNode(n: Json) {
    n.JObject? && HasString(n.fields, "type") && n.fields["type"].s == "http_request"
    && "config" in n.fields && n.fields["config"].JObject?
  }

  function ConfigOf(n: Json): Fields
    requires IsRequestNode(n)
  {
    n.fields["config"].fields
  }

  /** The headers of a configuration, when they are an object. */
  function HeadersOf(c: Fields): Fields {
    if "customHeaders" in c then FieldsOf(c["customHeaders"]) else map[]
  }

  function NodesOf(graph: Json): seq<Json> {
    if "nodes" in FieldsOf(graph) && FieldsOf(graph)["nodes"].JArray? then FieldsOf(graph)["nodes"].items else []
  }

  /* ---- Which secrets need rewriting, and which stop the run ---- */

  ghost predicate AnyField(f: Fields, covered: set<string>, p: string -> bool) {
    exists k <- covered :: HasString(f, k) && p(f[k].s)
  }

  ghost predicate AnyInConfig(c: Fields, p: string -> bool) {
    AnyField(c, {"bearerToken"}, p) || AnyField(HeadersOf(c), HeadersOf(c).Keys, p)
  }

  ghost predicate AnyInNode(n: Json, p: string -> bool) {
    IsRequestNode(n) && AnyInConfig(ConfigOf(n), p)
  }

  /** Some secret of the row has the property. */
  ghost predicate AnySecret(r: Row, p: string -> bool) {
    match r
    case SecretsRow(t, _, secrets) => AnyField(FieldsOf(secrets), Covered(t), p)
    case WebhookRow(_, secret) => p(secret)
    case WorkflowRow(_, trigger, graph) =>
      AnyField(FieldsOf(trigger), {"secret"}, p) || AnyNode(NodesOf(graph), p)
  }

  ghost predicate AnyNode(ns: seq<Json>, p: string -> bool) {
    exists n <- ns :: AnyInNode(n, p)
  }

  lemma NoNodes(p: string -> bool)
    ensures !AnyNode([], p)
  {
  }

  lemma OneMoreNode(ns: seq<Json>, n: Json, p: string -> bool)
    ensures AnyNode(ns + [n], p) <==> AnyNode(ns, p) || AnyInNode(n, p)
  {
    hide AnyInNode;
    assert forall m :: m in ns + [n] <==> m in ns || m == n;
  }

  ghost predicate RowNeeds(s: Setup, r: Row) {
    AnySecret(r, v => NeedsRewrite(s, v))
  }

  /** A null among the nodes of a graph, or a secret the old key does not open, stops the run. */
  ghost predicate RowFails(s: Setup, r: Row) {
    AnySecret(r, v => Fails(s, v)) || (r.WorkflowRow? && JNull in NodesOf(r.graph))
  }

  /* ---- What becomes of a row ---- */

  /** The covered strings are rekeyed; every other field stays. */
  ghost predicate FieldsRekeyed(s: Setup, f: Fields, g: Fields, covered: set<string>) {
    && f.Keys == g.Keys
    && (forall k <- f | !(k in covered && f[k].JString?) :: g[k] == f[k])
    && (forall k <- f | k in covered && f[k].JString? :: g[k].JString? && Rekeyed(s, f[k].s, g[k].s))
  }

  ghost predicate ObjectRekeyed(s: Setup, j: Json, k: Json, covered: set<string>) {
    if j.JObject? then k.JObject? && FieldsRekeyed(s, j.fields, k.fields, covered) else k == j
  }

  ghost predicate ConfigRekeyed(s: Setup, c: Fields, d: Fields) {
    && c.Keys == d.Keys
    && FieldsRekeyed(s, c - {"customHeaders"}, d - {"customHeaders"}, {"bearerToken"})
    && ("customHeaders" in c ==>
          ObjectRekeyed(s, c["customHeaders"], d["customHeaders"], FieldsOf(c["customHeaders"]).Keys))
  }

  ghost predicate NodeRekeyed(s: Setup, n: Json, m: Json) {
    if IsRequestNode(n) then
      && IsRequestNode(m) && ConfigRekeyed(s, ConfigOf(n), ConfigOf(m))
      && m.fields - {"config"} == n.fields - {"config"}
    else m == n
  }

  ghost predicate NodesRekeyed(s: Setup, ns: seq<Json>, ms: seq<Json>) {
    |ns| == |ms| && forall i :: 0 <= i < |ns| ==> NodeRekeyed(s, ns[i], ms[i])
  }

  ghost predicate GraphRekeyed(s: Setup, g: Json, h: Json) {
    if g.JObject? && "nodes" in g.fields && g.fields["nodes"].JArray? then
      && h.JObject? && "nodes" in h.fields && h.fields["nodes"].JArray?
      && h.fields - {"nodes"} == g.fields - {"nodes"}
      && NodesRekeyed(s, g.fields["nodes"].items, h.fields["nodes"].items)
    else h == g
  }

  ghost predicate RowRekeyed(s: Setup, r: Row, q: Row) {
    match r
    case SecretsRow(t, id, secrets) =>
      q.SecretsRow? && q.table == t && q.id == id && ObjectRekeyed(s, secrets, q.secrets, Covered(t))
    case WebhookRow(id, secret) => q.WebhookRow? && q.id == id && Rekeyed(s, secret, q.secret)
    case WorkflowRow(id, trigger, graph) =>
      && q.WorkflowRow? && q.id == id
      && ObjectRekeyed(s, trigger, q.trigger, {"secret"}) && GraphRekeyed(s, graph, q.graph)
  }

  /** The rows a run rewrites, in order. */
  ghost function NeedyRows(s: Setup, rows: seq<Row>): seq<Row> {
    if rows == [] then []
    else NeedyRows(s, rows[..|rows| - 1]) + if RowNeeds(s, rows[|rows| - 1]) then [rows[|rows| - 1]] else []
  }

  /** The rows before the failing one are rekeyed, the others untouched. */
  ghost predicate StoppedAt(s: Setup, before: seq<Row>, after: seq<Row>, k: nat) {
    && |before| == |after| && k <= |before|
    && (forall i :: k <= i < |before| ==> after[i] == before[i])
    && forall i :: 0 <= i < k ==> RowRekeyed(s, before[i], after[i])
  }

  lemma NoFields(f: Fields, p: string -> bool)
    ensures f == map[] ==> !AnyField(f, f.Keys, p)
  {
  }

  /** Empty strings are current; current secrets pass, and stay. */
  lemma CurrentStays(s: Setup)
    ensures !NeedsRewrite(s, "")
    ensures forall v :: !NeedsRewrite(s, v) ==> !Fails(s, v) && Rekeyed(s, v, v)
  {
  }

  /** Rekeying the bearer token does not touch the headers. */
  lemma HeadersApart(s: Setup, c: Fields, d: Fields)
    requires FieldsRekeyed(s, c, d, {"bearerToken"})
    ensures c.Keys == d.Keys && ("customHeaders" in c ==> d["customHeaders"] == c["customHeaders"])
    ensures FieldsRekeyed(s, c - {"customHeaders"}, d - {"customHeaders"}, {"bearerToken"})
  {
  }

  /* ---- The run ---- */

  class Job {
    const setup: Setup
    const randomBytes: nat -> Iv
    var drawn: nat
    var rows: seq<Row>
    var rewritten: nat

    constructor (setup: Setup, randomBytes: nat -> Iv, rows: seq<Row>)
      ensures this.setup == setup && this.rows == rows && rewritten == 0
    {
      this.setup, this.randomBytes, this.rows := setup, randomBytes, rows;
      drawn, rewritten := 0, 0;
    }

    method NextNormalized(value: string) returns (r: Result<Option<string>, Error>)
      requires Lawful(setup.aead)
      modifies `drawn
      ensures r.Err? <==> Fails(setup, value)
      ensures r == Ok(None) <==> !NeedsRewrite(setup, value)
      ensures r.Ok? && r.value.Some? ==> Rekeyed(setup, value, r.value.value)
      ensures r == Normalize(setup, value, randomBytes(old(drawn))) && drawn == old(drawn) + 1
    {
      NormalizeRekeys(setup, value, randomBytes(drawn));
      r := Normalize(setup, value, randomBytes(drawn));
      drawn := drawn + 1;
    }

    /** The covered strings of an object, one after the other; empty ones are skipped. */
    method RekeyFields(f: Fields, covered: set<string>) returns (r: Result<Fields, Error>, changed: bool)
      requires Lawful(setup.aead)
      modifies `drawn
      ensures r.Err? <==> AnyField(f, covered, v => Fails(setup, v))
      ensures r.Ok? ==> FieldsRekeyed(setup, f, r.value, covered)
      ensures r.Ok? ==> (changed <==> AnyField(f, covered, v => NeedsRewrite(setup, v)))
      ensures r.Ok? && !changed ==> r.value == f
    {
      hide Fails, NeedsRewrite, Rekeyed, Normalize, Lawful;
      CurrentStays(setup);
      var next := f;
      changed := false;
      var rest := covered;
      while rest != {}
        invariant rest <= covered
        invariant FieldsRekeyed(setup, f, next, covered - rest)
        invariant forall k <- covered - rest :: HasString(f, k) ==> !Fails(setup, f[k].s)
        invariant changed <==> exists k <- covered - rest :: HasString(f, k) && NeedsRewrite(setup, f[k].s)
        invariant !changed ==> next == f
        decreases |rest|
      {
        var k :| k in rest;
        if HasString(f, k) && f[k].s != "" {
          var rw := NextNormalized(f[k].s);
          if rw.Err? {
            return Err(rw.error), changed;
          }
          if rw.value.Some? {
            next := next[k := JString(rw.value.value)];
            changed := true;
          }
        }
        rest := rest - {k};
      }
      assert covered - {} == covered;
      return Ok(next), changed;
    }

    /** A node's configuration: the bearer token, then every header. */
    method RekeyConfig(c: Fields) returns (r: Result<Fields, Error>, changed: bool)
      requires Lawful(setup.aead)
      modifies `drawn
      ensures r.Err? <==> AnyInConfig(c, v => Fails(setup, v))
      ensures r.Ok? ==> ConfigRekeyed(setup, c, r.value)
      ensures r.Ok? ==> (changed <==> AnyInConfig(c, v => NeedsRewrite(setup, v)))
      ensures r.Ok? && !changed ==> r.value == c
    {
      hide AnyField, FieldsRekeyed;
      var cfg, tokenChanged := RekeyFields(c, {"bearerToken"});
      if cfg.Err? {
        return cfg, tokenChanged;
      }
      var next := cfg.value;
      HeadersApart(setup, c, next);
      if "customHeaders" !in c || !c["customHeaders"].JObject? {
        NoFields(HeadersOf(c), v => Fails(setup, v));
        NoFields(HeadersOf(c), v => NeedsRewrite(setup, v));
        return cfg, tokenChanged;
      }
      var headers := c["customHeaders"].fields;
      var enc, headersChanged := RekeyFields(headers, headers.Keys);
      if enc.Err? {
        return enc, tokenChanged;
      }
      if headersChanged {
        next := next["customHeaders" := JObject(enc.value)];
        assert next - {"customHeaders"} == cfg.value - {"customHeaders"};
      }
      return Ok(next), tokenChanged || headersChanged;
    }

    /** One node of a graph; nodes of other kinds, and unchanged ones, are passed on as they are. */
    method RekeyNode(n: Json) returns (r: Result<Json, Error>, changed: bool)
      requires Lawful(setup.aead)
      modifies `drawn
      ensures r.Err? <==> n.JNull? || AnyInNode(n, v => Fails(setup, v))
      ensures r.Ok? ==> NodeRekeyed(setup, n, r.value)
      ensures r.Ok? ==> (changed <==> AnyInNode(n, v => NeedsRewrite(setup, v)))
      ensures r.Ok? && !changed ==> r.value == n
    {
      hide ConfigRekeyed, AnyInConfig;
      if n.JNull? {
        return Err(NullNode), false;
      }
      if !IsRequestNode(n) {
        return Ok(n), false;
      }
      var cfg, nodeChanged := RekeyConfig(ConfigOf(n));
      if cfg.Err? {
        return Err(cfg.error), nodeChanged;
      }
      if !nodeChanged {
        return Ok(n), false;
      }
      var m := JObject(n.fields["config" := JObject(cfg.value)]);
      assert m.fields - {"config"} == n.fields - {"config"};
      return Ok(m), true;
    }

    method RekeyNodes(ns: seq<Json>) returns (r: Result<seq<Json>, Error>, changed: bool)
      requires Lawful(setup.aead)
      modifies `drawn
      ensures r.Err? <==> JNull in ns || AnyNode(ns, v => Fails(setup, v))
      ensures r.Ok? ==> NodesRekeyed(setup, ns, r.value)
      ensures r.Ok? ==> (changed <==> AnyNode(ns, v => NeedsRewrite(setup, v)))
      ensures r.Ok? && !changed ==> r.value == ns
    {
      hide NodeRekeyed, AnyInNode;
      var nodes: seq<Json> := [];
      changed := false;
      for i := 0 to |ns|
        invariant |nodes| == i && forall j :: 0 <= j < i ==> NodeRekeyed(setup, ns[j], nodes[j])
        invariant JNull !in ns[..i] && !AnyNode(ns[..i], v => Fails(setup, v))
        invariant changed <==> AnyNode(ns[..i], v => NeedsRewrite(setup, v))
        invariant !changed ==> nodes == ns[..i]
      {
        assert ns[..i + 1] == ns[..i] + [ns[i]];
        OneMoreNode(ns[..i], ns[i], v => Fails(setup, v));
        OneMoreNode(ns[..i], ns[i], v => NeedsRewrite(setup, v));
        var node, nodeChanged := RekeyNode(ns[i]);
        if node.Err? {
          return Err(node.error), changed;
        }
        nodes := nodes + [node.value];
        changed := changed || nodeChanged;
      }
      assert ns[..|ns|] == ns;
      return Ok(nodes), changed;
    }

    method RekeyObject(j: Json, covered: set<string>) returns (r: Result<Json, Error>, changed: bool)
      requires Lawful(setup.aead)
      modifies `drawn
      ensures r.Err? <==> AnyField(FieldsOf(j), covered, v => Fails(setup, v))
      ensures r.Ok? ==> ObjectRekeyed(setup, j, r.value, covered)
      ensures r.Ok? ==> (changed <==> AnyField(FieldsOf(j), covered, v => NeedsRewrite(setup, v)))
      ensures r.Ok? && !changed ==> r.value == j
    {
      if !j.JObject? {
        return Ok(j), false;
      }
      hide AnyField, FieldsRekeyed;
      var next, fieldsChanged := RekeyFields(j.fields, covered);
      if next.Err? {
        return Err(next.error), fieldsChanged;
      }
      return Ok(if fieldsChanged then JObject(next.value) else j), fieldsChanged;
    }

    method RekeyGraph(g: Json) returns (r: Result<Json, Error>, changed: bool)
      requires Lawful(setup.aead)
      modifies `drawn
      ensures r.Err? <==> JNull in NodesOf(g) || AnyNode(NodesOf(g), v => Fails(setup, v))
      ensures r.Ok? ==> GraphRekeyed(setup, g, r.value)
      ensures r.Ok? ==> (changed <==> AnyNode(NodesOf(g), v => NeedsRewrite(setup, v)))
      ensures r.Ok? && !changed ==> r.value == g
    {
      hide AnyNode, NodesRekeyed;
      if !(g.JObject? && "nodes" in g.fields && g.fields["nodes"].JArray?) {
        NoNodes(v => Fails(setup, v));
        NoNodes(v => NeedsRewrite(setup, v));
        return Ok(g), false;
      }
      var nodes, graphChanged := RekeyNodes(g.fields["nodes"].items);
      if nodes.Err? {
        return Err(nodes.error), graphChanged;
      }
      if !graphChanged {
        return Ok(g), false;
      }
      var h := JObject(g.fields["nodes" := JArray(nodes.value)]);
      assert h.fields - {"nodes"} == g.fields - {"nodes"};
      return Ok(h), true;
    }

    /** One row of any of the five tables. */
    method RekeyRow(row: Row) returns (r: Result<Row, Error>, changed: bool)
      requires Lawful(setup.aead)
      modifies `drawn
      ensures r.Err? <==> RowFails(setup, row)
      ensures r.Ok? ==> RowRekeyed(setup, row, r.value)
      ensures r.Ok? ==> (changed <==> RowNeeds(setup, row))
      ensures r.Ok? && !changed ==> r.value == row
    {
      hide AnyField, AnyNode, ObjectRekeyed, GraphRekeyed, Fails, NeedsRewrite, Covered;
      match row
      case SecretsRow(t, id, secrets) =>
        var next, c := RekeyObject(secrets, Covered(t));
        return if next.Err? then Err(next.error) else Ok(SecretsRow(t, id, next.value)), c;
      case WebhookRow(id, secret) =>
        var rw := NextNormalized(secret);
        CurrentStays(setup);
        if rw.Err? {
          return Err(rw.error), false;
        }
        return Ok(if rw.value.Some? then WebhookRow(id, rw.value.value) else row), rw.value.Some?;
      case WorkflowRow(id, trigger, graph) =>
        var t, triggerChanged := RekeyObject(trigger, {"secret"});
        if t.Err? {
          return Err(t.error), triggerChanged;
        }
        var g, graphChanged := RekeyGraph(graph);
        if g.Err? {
          return Err(g.error), triggerChanged;
        }
        return Ok(WorkflowRow(id, t.value, g.value)), triggerChanged || graphChanged;
    }

    /**
     * The loops over the tables. A dry run writes nothing; a run that stops leaves the rows
     * from the failing one on as they were.
     */
    method Run(dryRun: bool) returns (r: Result<(), Error>)
      requires Lawful(setup.aead)
      modifies this
      ensures r.Ok? <==> forall row <- old(rows) :: !RowFails(setup, row)
      ensures |rows| == |old(rows)|
      ensures dryRun ==> rows == old(rows)
      ensures r.Ok? && !dryRun ==> forall i :: 0 <= i < |rows| ==> RowRekeyed(setup, old(rows)[i], rows[i])
      ensures forall i :: 0 <= i < |rows| && !RowNeeds(setup, old(rows)[i]) ==> rows[i] == old(rows)[i]
      ensures r.Ok? ==> rewritten == old(rewritten) + |NeedyRows(setup, old(rows))|
      ensures r.Err? && !dryRun ==> exists k :: 0 <= k < |rows| && RowFails(setup, old(rows)[k])
                                               && StoppedAt(setup, old(rows), rows, k)
    {
      hide RowFails, RowRekeyed, RowNeeds;
      ghost var before := rows;
      for i := 0 to |rows|
        invariant |rows| == |before| && forall j :: i <= j < |rows| ==> rows[j] == before[j]
        invariant dryRun ==> rows == before
        invariant !dryRun ==> forall j :: 0 <= j < i ==> RowRekeyed(setup, before[j], rows[j])
        invariant forall j :: 0 <= j < |rows| && !RowNeeds(setup, before[j]) ==> rows[j] == before[j]
        invariant forall row <- before[..i] :: !RowFails(setup, row)
        invariant rewritten == old(rewritten) + |NeedyRows(setup, before[..i])|
      {
        assert before[..i + 1] == before[..i] + [before[i]];
        assert before[..i + 1][..i] == before[..i];
        var row, changed := RekeyRow(rows[i]);
        if row.Err? {
          return Err(row.error);
        }
        if changed {
          rewritten := rewritten + 1;
        }
        if !dryRun && changed {
          rows := rows[i := row.value];
        }
      }
      assert before[..|rows|] == before;
      return Ok(());
    }
  }

  /* ---- What a completed run keeps ---- */

  /** The places of a row where a secret may be. */
  datatype Place =
    | SecretField(key: string) | WebhookSecret | TriggerSecret
    | BearerToken(node: nat) | Header(node: nat, name: string)

  function StringAt(f: Fields, key: string): Option<string> {
    if HasString(f, key) then Some(f[key].s) else None
  }

  function NodeConfig(graph: Json, i: nat): Fields {
    if i < |NodesOf(graph)| && IsRequestNode(NodesOf(graph)[i]) then ConfigOf(NodesOf(graph)[i]) else map[]
  }

  /** The secret at a place of a row. */
  function SecretAt(r: Row, p: Place): Option<string> {
    match (r, p)
    case (SecretsRow(t, _, secrets), SecretField(k)) => if k in Covered(t) then StringAt(FieldsOf(secrets), k) else None
    case (WebhookRow(_, secret), WebhookSecret) => Some(secret)
    case (WorkflowRow(_, trigger, _), TriggerSecret) => StringAt(FieldsOf(trigger), "secret")
    case (WorkflowRow(_, _, graph), BearerToken(i)) => StringAt(NodeConfig(graph, i), "bearerToken")
    case (WorkflowRow(_, _, graph), Header(i, h)) => StringAt(HeadersOf(NodeConfig(graph, i)), h)
    case _ => None
  }

  /* A row with its secrets blanked out: everything a run must leave alone. */

  function BlankFields(f: Fields, covered: set<string>): Fields {
    map k | k in f :: if k in covered && f[k].JString? then JString("") else f[k]
  }

  function BlankObject(j: Json, covered: set<string>): Json {
    if j.JObject? then JObject(BlankFields(j.fields, covered)) else j
  }

  function BlankConfig(c: Fields): Fields {
    var d := BlankFields(c, {"bearerToken"});
    if "customHeaders" in c then
      d["customHeaders" := BlankObject(c["customHeaders"], FieldsOf(c["customHeaders"]).Keys)]
    else d
  }

  function BlankNode(n: Json): Json {
    if IsRequestNode(n) then JObject(n.fields["config" := JObject(BlankConfig(ConfigOf(n)))]) else n
  }

  function BlankNodes(ns: seq<Json>): seq<Json> {
    if ns == [] then [] else [BlankNode(ns[0])] + BlankNodes(ns[1..])
  }

  function BlankGraph(g: Json): Json {
    if g.JObject? && "nodes" in g.fields && g.fields["nodes"].JArray? then
      JObject(g.fields["nodes" := JArray(BlankNodes(g.fields["nodes"].items))])
    else g
  }

  function BlankRow(r: Row): Row {
    match r
    case SecretsRow(t, id, secrets) => SecretsRow(t, id, BlankObject(secrets, Covered(t)))
    case WebhookRow(id, _) => WebhookRow(id, "")
    case WorkflowRow(id, trigger, graph) => WorkflowRow(id, BlankObject(trigger, {"secret"}), BlankGraph(graph))
  }

  /* ---- Everything else stays ---- */

  lemma BlankFieldsEqual(s: Setup, f: Fields, g: Fields, covered: set<string>)
    requires FieldsRekeyed(s, f, g, covered)
    ensures BlankFields(f, covered) == BlankFields(g, covered)
  {
    hide Rekeyed;
  }

  lemma BlankObjectEqual(s: Setup, j: Json, k: Json, covered: set<string>)
    requires ObjectRekeyed(s, j, k, covered)
    ensures BlankObject(j, covered) == BlankObject(k, covered)
  {
    hide FieldsRekeyed, BlankFields;
    if j.JObject? {
      BlankFieldsEqual(s, j.fields, k.fields, covered);
    }
  }

  lemma BlankConfigEqual(s: Setup, c: Fields, d: Fields)
    requires ConfigRekeyed(s, c, d)
    ensures BlankConfig(c) == BlankConfig(d)
  {
    hide Rekeyed;
    var rest := {"customHeaders"};
    BlankFieldsEqual(s, c - rest, d - rest, {"bearerToken"});
    assert BlankFields(c, {"bearerToken"}) - rest == BlankFields(c - rest, {"bearerToken"});
    assert BlankFields(d, {"bearerToken"}) - rest == BlankFields(d - rest, {"bearerToken"});
    if "customHeaders" in c {
      SameKeys(s, c["customHeaders"], d["customHeaders"]);
      BlankObjectEqual(s, c["customHeaders"], d["customHeaders"], FieldsOf(c["customHeaders"]).Keys);
    }
    assert BlankConfig(c) - rest == BlankConfig(d) - rest;
  }

  lemma SameKeys(s: Setup, j: Json, k: Json)
    requires ObjectRekeyed(s, j, k, FieldsOf(j).Keys)
    ensures FieldsOf(k).Keys == FieldsOf(j).Keys
  {
  }

  /** Objects that agree but for one field agree once that field is the same. */
  lemma SameOnceReplaced(f: Fields, g: Fields, key: string, v: Json)
    requires f - {key} == g - {key}
    ensures f[key := v] == g[key := v]
  {
    assert forall k :: k != key ==> (k in f <==> k in f - {key}) && (k in g <==> k in g - {key});
    assert forall k | k in f && k != key :: f[k] == (f - {key})[k];
    assert forall k | k in g && k != key :: g[k] == (g - {key})[k];
  }

  lemma BlankNodeEqual(s: Setup, n: Json, m: Json)
    requires NodeRekeyed(s, n, m)
    ensures BlankNode(n) == BlankNode(m)
  {
    hide ConfigRekeyed, BlankConfig;
    if IsRequestNode(n) {
      BlankConfigEqual(s, ConfigOf(n), ConfigOf(m));
      SameOnceReplaced(n.fields, m.fields, "config", JObject(BlankConfig(ConfigOf(n))));
    }
  }

  lemma {:induction false} BlankNodesEqual(s: Setup, ns: seq<Json>, ms: seq<Json>)
    requires NodesRekeyed(s, ns, ms)
    ensures BlankNodes(ns) == BlankNodes(ms)
  {
    hide NodeRekeyed, BlankNode;
    if ns != [] {
      BlankNodeEqual(s, ns[0], ms[0]);
      BlankNodesEqual(s, ns[1..], ms[1..]);
    }
  }

  /** Apart from its secrets, a row comes out of a run as it went in: fields, nodes and their order. */
  lemma RestIsUnchanged(s: Setup, r: Row, q: Row)
    requires RowRekeyed(s, r, q)
    ensures BlankRow(r) == BlankRow(q)
  {
    hide ObjectRekeyed, BlankObject, NodesRekeyed, BlankNodes;
    match r
    case SecretsRow(t, _, secrets) => BlankObjectEqual(s, secrets, q.secrets, Covered(t));
    case WebhookRow(_, _) =>
    case WorkflowRow(_, trigger, graph) =>
      BlankObjectEqual(s, trigger, q.trigger, {"secret"});
      if graph.JObject? && "nodes" in graph.fields && graph.fields["nodes"].JArray? {
        BlankNodesEqual(s, graph.fields["nodes"].items, q.graph.fields["nodes"].items);
        var nodes := JArray(BlankNodes(graph.fields["nodes"].items));
        SameOnceReplaced(graph.fields, q.graph.fields, "nodes", nodes);
      }
  }

  /* ---- Every secret keeps its meaning ---- */

  /** The secrets at corresponding places: both there or neither, and rekeyed. */
  ghost predicate PairRekeyed(s: Setup, v: Option<string>, w: Option<string>) {
    match (v, w)
    case (None, None) => true
    case (Some(a), Some(b)) => Rekeyed(s, a, b)
    case _ => false
  }

  lemma FieldPair(s: Setup, j: Json, k: Json, covered: set<string>, key: string)
    requires ObjectRekeyed(s, j, k, covered) && key in covered
    ensures PairRekeyed(s, StringAt(FieldsOf(j), key), StringAt(FieldsOf(k), key))
  {
    hide Rekeyed;
  }

  lemma ConfigPairs(s: Setup, c: Fields, d: Fields, h: string)
    requires ConfigRekeyed(s, c, d)
    ensures PairRekeyed(s, StringAt(c, "bearerToken"), StringAt(d, "bearerToken"))
    ensures PairRekeyed(s, StringAt(HeadersOf(c), h), StringAt(HeadersOf(d), h))
  {
    hide Rekeyed;
    var rest := {"customHeaders"};
    FieldPair(s, JObject(c - rest), JObject(d - rest), {"bearerToken"}, "bearerToken");
    assert StringAt(c - rest, "bearerToken") == StringAt(c, "bearerToken");
    assert StringAt(d - rest, "bearerToken") == StringAt(d, "bearerToken");
    if "customHeaders" in c && h in FieldsOf(c["customHeaders"]) {
      FieldPair(s, c["customHeaders"], d["customHeaders"], FieldsOf(c["customHeaders"]).Keys, h);
    }
  }

  lemma NodePairs(s: Setup, g: Json, h: Json, i: nat, name: string)
    requires GraphRekeyed(s, g, h)
    ensures PairRekeyed(s, StringAt(NodeConfig(g, i), "bearerToken"), StringAt(NodeConfig(h, i), "bearerToken"))
    ensures PairRekeyed(s, StringAt(HeadersOf(NodeConfig(g, i)), name), StringAt(HeadersOf(NodeConfig(h, i)), name))
  {
    hide ConfigRekeyed, PairRekeyed, StringAt, HeadersOf;
    NoPair(s, name);
    assert |NodesOf(g)| == |NodesOf(h)|;
    if i < |NodesOf(g)| {
      assert NodeRekeyed(s, NodesOf(g)[i], NodesOf(h)[i]);
      if IsRequestNode(NodesOf(g)[i]) {
        ConfigPairs(s, NodeConfig(g, i), NodeConfig(h, i), name);
      }
    }
  }

  lemma NoPair(s: Setup, name: string)
    ensures PairRekeyed(s, StringAt(map[], "bearerToken"), StringAt(map[], "bearerToken"))
    ensures PairRekeyed(s, StringAt(HeadersOf(map[]), name), StringAt(HeadersOf(map[]), name))
  {
  }

  lemma PlacesRekeyed(s: Setup, r: Row, q: Row, p: Place)
    requires RowRekeyed(s, r, q)
    ensures PairRekeyed(s, SecretAt(r, p), SecretAt(q, p))
  {
    hide ObjectRekeyed, GraphRekeyed, StringAt, Rekeyed, NodeConfig, Covered;
    match (r, p)
    case (SecretsRow(t, _, secrets), SecretField(k)) =>
      if k in Covered(t) {
        FieldPair(s, secrets, q.secrets, Covered(t), k);
      }
    case (WorkflowRow(_, trigger, _), TriggerSecret) => FieldPair(s, trigger, q.trigger, {"secret"}, "secret");
    case (WorkflowRow(_, _, graph), BearerToken(i)) => NodePairs(s, graph, q.graph, i, "");
    case (WorkflowRow(_, _, graph), Header(i, h)) => NodePairs(s, graph, q.graph, i, h);
    case _ =>
  }

  /** Rotation keeps meanings: at every place, what the new key reads now is what the old key read before. */
  lemma SecretsKeepTheirMeaning(s: Setup, r: Row, q: Row, p: Place)
    requires RowRekeyed(s, r, q)
    ensures SecretAt(r, p).Some? <==> SecretAt(q, p).Some?
    ensures SecretAt(r, p).Some? ==>
      var v, w := SecretAt(r, p).value, SecretAt(q, p).value;
      && Meaning(s.aead, w, s.newKey) == Meaning(s.aead, v, s.oldKey)
      && (v == "" <==> w == "") && (v != "" ==> IsEncrypted(w))
  {
    hide RowRekeyed, SecretAt, DecryptWith;
    PlacesRekeyed(s, r, q, p);
  }

  /* ---- A second run ---- */

  lemma FieldHasAPlace(f: Fields, covered: set<string>, p: string -> bool) returns (k: string)
    requires AnyField(f, covered, p)
    ensures k in covered && StringAt(f, k).Some? && p(StringAt(f, k).value)
  {
    k :| k in covered && HasString(f, k) && p(f[k].s);
  }

  /** A secret with the property somewhere in the row stands at some place. */
  lemma SecretHasAPlace(r: Row, p: string -> bool) returns (at: Place)
    requires AnySecret(r, p)
    ensures SecretAt(r, at).Some? && p(SecretAt(r, at).value)
  {
    hide AnyField, StringAt, HasString;
    match r
    case SecretsRow(t, _, secrets) =>
      var k := FieldHasAPlace(FieldsOf(secrets), Covered(t), p);
      at := SecretField(k);
    case WebhookRow(_, _) =>
      at := WebhookSecret;
    case WorkflowRow(_, trigger, graph) =>
      if AnyField(FieldsOf(trigger), {"secret"}, p) {
        var k := FieldHasAPlace(FieldsOf(trigger), {"secret"}, p);
        at := TriggerSecret;
      } else {
        var i :| 0 <= i < |NodesOf(graph)| && AnyInNode(NodesOf(graph)[i], p);
        var c := NodeConfig(graph, i);
        if AnyField(c, {"bearerToken"}, p) {
          var k := FieldHasAPlace(c, {"bearerToken"}, p);
          at := BearerToken(i);
        } else {
          var h := FieldHasAPlace(HeadersOf(c), HeadersOf(c).Keys, p);
          at := Header(i, h);
        }
      }
  }

  /** After a completed run under the new key, a run that keeps that key rewrites nothing and does not stop. */
  lemma SecondRunIsIdle(s: Setup, r: Row, q: Row)
    requires RowRekeyed(s, r, q) && !RowFails(s, r)
    ensures !RowNeeds(Setup(s.aead, s.newKey, s.newKey), q) && !RowFails(Setup(s.aead, s.newKey, s.newKey), q)
  {
    var again := Setup(s.aead, s.newKey, s.newKey);
    NoNullNodes(s, r, q);
    hide RowRekeyed, SecretAt, AnySecret;
    if RowNeeds(again, q) {
      var at := SecretHasAPlace(q, v => NeedsRewrite(again, v));
      SecretsKeepTheirMeaning(s, r, q, at);
      assert false;
    }
    if AnySecret(q, v => Fails(again, v)) {
      var at := SecretHasAPlace(q, v => Fails(again, v));
      assert false;
    }
  }

  lemma NoNullNodes(s: Setup, r: Row, q: Row)
    requires RowRekeyed(s, r, q)
    ensures q.WorkflowRow? && JNull in NodesOf(q.graph) ==> JNull in NodesOf(r.graph)
  {
    hide ConfigRekeyed, ObjectRekeyed;
    if q.WorkflowRow? && JNull in NodesOf(q.graph) {
      var i :| 0 <= i < |NodesOf(q.graph)| && NodesOf(q.graph)[i] == JNull;
      assert NodeRekeyed(s, NodesOf(r.graph)[i], NodesOf(q.graph)[i]);
      assert NodesOf(r.graph)[i] == JNull;
    }
  }

  /** Two rotations in a row: the newest key reads what the oldest key read. */
  lemma RotationsCompose(s: Setup, s': Setup, r: Row, q: Row, z: Row, p: Place)
    requires s'.aead == s.aead && s'.oldKey == s.newKey
    requires RowRekeyed(s, r, q) && RowRekeyed(s', q, z)
    ensures BlankRow(z) == BlankRow(r) && (SecretAt(r, p).Some? <==> SecretAt(z, p).Some?)
    ensures SecretAt(r, p).Some? ==>
      Meaning(s.aead, SecretAt(z, p).value, s'.newKey) == Meaning(s.aead, SecretAt(r, p).value, s.oldKey)
  {
    hide RowRekeyed, BlankRow, SecretAt, Meaning;
    RestIsUnchanged(s, r, q);
    RestIsUnchanged(s', q, z);
    SecretsKeepTheirMeaning(s, r, q, p);
    SecretsKeepTheirMeaning(s', q, z, p);
  }

  /* ---- Where the secrets are ---- */

  /** An object with this member. */
  ghost predicate Holds(j: Json, key: string, v: Json) {
    j.JObject? && key in j.fields && j.fields[key] == v
  }

  /** Node `i` of a graph is an HTTP request with this configuration. */
  ghost predicate RequestAt(graph: Json, i: nat, config: Json) {
    exists ns :: && Holds(graph, "nodes", JArray(ns)) && i < |ns| && Holds(ns[i], "type", JString("http_request"))
                 && Holds(ns[i], "config", config) && config.JObject?
  }

  /** The secrets of the tables that keep an object of them: these fields, and no others. */
  lemma SecretFields(id: string, secrets: Json, k: string, v: string)
    ensures SecretAt(SecretsRow(ChannelConnection, id, secrets), SecretField(k)) == Some(v) <==>
            k in {"accessToken", "appSecret", "pageAccessToken", "igAccessToken"} && Holds(secrets, k, JString(v))
    ensures SecretAt(SecretsRow(MetaConnection, id, secrets), SecretField(k)) == Some(v) <==>
            k in {"appSecret", "systemUserToken"} && Holds(secrets, k, JString(v))
    ensures SecretAt(SecretsRow(PendingSubscriptionRelease, id, secrets), SecretField(k)) == Some(v) <==>
            k in {"accessToken", "appSecret"} && Holds(secrets, k, JString(v))
    ensures SecretAt(WebhookRow(id, v), WebhookSecret) == Some(v)
  {
  }

  lemma RequestConfig(graph: Json, i: nat, c: Fields)
    ensures RequestAt(graph, i, JObject(c)) ==> NodeConfig(graph, i) == c
    ensures NodeConfig(graph, i) == c != map[] ==> RequestAt(graph, i, JObject(c))
  {
    if NodeConfig(graph, i) == c != map[] {
      var ns := NodesOf(graph);
      assert Holds(graph, "nodes", JArray(ns)) && Holds(ns[i], "config", JObject(c));
    }
  }

  /** The secrets of a workflow: its trigger's, and the bearer token and headers of its HTTP requests. */
  lemma WorkflowSecrets(id: string, trigger: Json, graph: Json, i: nat, h: string, v: string)
    ensures SecretAt(WorkflowRow(id, trigger, graph), TriggerSecret) == Some(v) <==>
            Holds(trigger, "secret", JString(v))
    ensures SecretAt(WorkflowRow(id, trigger, graph), BearerToken(i)) == Some(v) <==>
            exists config :: RequestAt(graph, i, config) && Holds(config, "bearerToken", JString(v))
    ensures SecretAt(WorkflowRow(id, trigger, graph), Header(i, h)) == Some(v) <==>
            exists config, headers :: && RequestAt(graph, i, config) && Holds(config, "customHeaders", headers)
                                      && Holds(headers, h, JString(v))
  {
    hide NodeConfig, RequestAt;
    var c := NodeConfig(graph, i);
    RequestConfig(graph, i, c);
    forall config | RequestAt(graph, i, config)
      ensures config == JObject(c)
    {
      IsConfig(graph, i, config);
      RequestConfig(graph, i, config.fields);
    }
    if "bearerToken" in c {
      assert Holds(JObject(c), "bearerToken", c["bearerToken"]);
    }
    if "customHeaders" in c {
      assert Holds(JObject(c), "customHeaders", c["customHeaders"]);
    }
  }

  lemma IsConfig(graph: Json, i: nat, config: Json)
    requires RequestAt(graph, i, config)
    ensures config.JObject?
  {
  }

  /** A row has a secret with a property exactly when one of its places holds one. */
  lemma AnySecretIffSomePlace(r: Row, p: string -> bool)
    ensures AnySecret(r, p) <==> exists at :: SecretAt(r, at).Some? && p(SecretAt(r, at).value)
  {
    if AnySecret(r, p) {
      var at := SecretHasAPlace(r, p);
    }
    forall at | SecretAt(r, at).Some? && p(SecretAt(r, at).value)
      ensures AnySecret(r, p)
    {
      PlaceIsSecret(r, at, p);
    }
  }

  lemma PlaceIsSecret(r: Row, at: Place, p: string -> bool)
    requires SecretAt(r, at).Some? && p(SecretAt(r, at).value)
    ensures AnySecret(r, p)
  {
    match (r, at)
    case (WorkflowRow(_, _, graph), BearerToken(i)) => assert AnyInNode(NodesOf(graph)[i], p);
    case (WorkflowRow(_, _, graph), Header(i, h)) => assert AnyInNode(NodesOf(graph)[i], p);
    case _ =>
  }

  /** Which rows a run rewrites, and which stop it, place by place. */
  lemma RunsDecideByPlace(s: Setup, r: Row)
    ensures RowNeeds(s, r) <==>
            exists at :: && SecretAt(r, at).Some? && SecretAt(r, at).value != ""
                         && (!("enc:v1:" <= SecretAt(r, at).value) || s.oldKey != s.newKey)
    ensures RowFails(s, r) <==>
            || (r.WorkflowRow? && exists ns :: Holds(r.graph, "nodes", JArray(ns)) && JNull in ns)
            || (s.oldKey != s.newKey
                && exists at :: && SecretAt(r, at).Some? && "enc:v1:" <= SecretAt(r, at).value
                                && DecryptWith(s.aead, SecretAt(r, at).value, s.oldKey).Err?)
  {
    hide SecretAt, AnySecret, DecryptWith;
    AnySecretIffSomePlace(r, v => NeedsRewrite(s, v));
    AnySecretIffSomePlace(r, v => Fails(s, v));
    if r.WorkflowRow? && JNull in NodesOf(r.graph) {
      assert Holds(r.graph, "nodes", JArray(NodesOf(r.graph)));
    }
  }
}
