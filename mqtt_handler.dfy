/**
 * The packaged version of the binding core (`MQTT_Handler/MQTT.py`).
 *
 * A decorated object gets one `Topic` cell per declared MQTT topic, stored
 * in the object's field named after the topic. A registry (`sub_dict`)
 * pairs the cells of successful subscriptions with their topic strings, the
 * dispatcher writes inbound payloads into the matching cells, and
 * assignments to a field that holds a cell become permission-checked
 * publishes.
 */
module MqttHandler {
  import opened Builtins
  import opened Dict
  import opened Transport

  /** The value a cell holds before any message arrives or any publish succeeds. */
  const NO_MESSAGE_RECEIVED: string := "NO_MESSAGE_RECEIVED"

  // ---------------------------------------------------------------------
  // Numeric-or-text coercion
  // ---------------------------------------------------------------------

  /** What `_safe_float` hands back: the parsed number, or its argument untouched. */
  datatype Coerced = Number(x: real) | Unchanged(v: Value)

  /** `Topic._safe_float`: `float(v)`, or `v` itself when `float` raises `ValueError`. */
  function SafeFloat(v: Value): (r: Coerced)
    ensures r.Unchanged? ==> r.v == v
    ensures r.Number? <==> (v.Int? || ParseFloat(v.s).Some?)
  {
    match v
    case Int(i) => Number(i as real)
    case Text(s) =>
      match ParseFloat(s)
      case Some(x) => Number(x)
      case None => Unchanged(v)
  }

  /** An integer and its decimal text coerce to the same number. */
  lemma SafeFloatIntText(i: int)
    ensures SafeFloat(Text(IntText(i))) == SafeFloat(Int(i)) == Number(i as real)
  {
    IntTextParses(i);
  }

  /** Text holding a character outside the modelled decimal numerals (signs, digits, the point) is left unchanged. */
  lemma SafeFloatKeepsNonNumeral(s: string, i: nat)
    requires i < |s| && !IsNumeralChar(s[i])
    ensures SafeFloat(Text(s)) == Unchanged(Text(s))
  {
    NonNumeralTextDoesNotParse(s, i);
  }

  /** `"12.5"` coerces to 12.5, `"6"` and `"6.0"` to the same number, `"ON"` stays text. */
  lemma SafeFloatExamples()
    ensures SafeFloat(Text("12.5")) == Number(12.5)
    ensures SafeFloat(Text("6")) == SafeFloat(Text("6.0")) == Number(6.0)
    ensures SafeFloat(Text("ON")) == Unchanged(Text("ON"))
  {
    assert DigitsValue("12") == 12 by {
      assert "12"[..1] == "1";
    }
    assert ParseUnsigned("12.5") == Some(12.5) by {
      assert IndexOf("12.5", '.') == Some(2);
      assert "12.5"[..2] == "12" && "12.5"[3..] == "5";
    }
    assert ParseFloat("12.5") == Some(12.5);
    assert ParseUnsigned("6.0") == Some(6.0) by {
      assert IndexOf("6.0", '.') == Some(1);
      assert "6.0"[..1] == "6" && "6.0"[2..] == "0";
    }
    assert ParseFloat("6") == Some(6.0) by {
      assert IndexOf("6", '.') == None;
    }
    SafeFloatKeepsNonNumeral("ON", 0);
  }

  // ---------------------------------------------------------------------
  // The binding cell
  // ---------------------------------------------------------------------

  /** `Topic`: the cell bound to one MQTT topic on one decorated object. */
  class Topic {
    /** `_topic`: the MQTT topic string. */
    const topic: string
    /** `_client`: the client the cell publishes through. */
    const client: Client
    /** `_value`: the last received or successfully published payload. */
    var value: Value
    /** `_can_publish`: set by the binder for declared publications. */
    var canPublish: bool
    /** `_is_subscribed`: set by the binder for declared subscriptions. */
    var isSubscribed: bool
    /** `_listed_as_sub_at`: the registry holding this cell, once registered. */
    var listedAt: SubDict?
    /** `last_message_time` and `last_publish_time`, in seconds. */
    var lastMessageTime: real
    var lastPublishTime: real
    /** How many times `on_change` has run. */
    ghost var onChangeCalls: nat

    /** `Topic(topic)` followed by the binder's `_client` assignment. */
    constructor (topic: string, client: Client)
      ensures this.topic == topic && this.client == client
      ensures value == Text(NO_MESSAGE_RECEIVED)
      ensures !canPublish && !isSubscribed && listedAt == null
      ensures lastMessageTime == 0.0 && lastPublishTime == 0.0
      ensures onChangeCalls == 0
    {
      this.topic := topic;
      this.client := client;
      value := Text(NO_MESSAGE_RECEIVED);
      canPublish := false;
      isSubscribed := false;
      listedAt := null;
      lastMessageTime := 0.0;
      lastPublishTime := 0.0;
      onChangeCalls := 0;
    }

    /**
     * `_publish(payload, qos, retain)`: without publish permission nothing
     * is sent and the result is `None`; otherwise the message goes out with
     * the given quality of service and retain flag, and the client's result
     * code comes back.
     */
    method Publish(payload: Value, qos: int, retain: bool) returns (rc: Option<int>)
      modifies client`log
      ensures !canPublish ==> rc == None && client.log == old(client.log)
      ensures canPublish ==> rc == Some(client.Reply(|old(client.log)|))
      ensures canPublish ==> client.log == old(client.log) + [Call.Publish(topic, payload, qos, retain)]
    {
      if !canPublish {
        rc := None;
      } else {
        var result := client.Publish(topic, payload, qos, retain);
        rc := Some(result);
      }
    }

    /**
     * The `value` setter: publish first with the default quality of service
     * 0 and no retain flag, and take the payload as the local value
     * (stamping the publish time) only when the publish returned 0.
     */
    method SetValue(payload: Value, now: real)
      modifies this`value, this`lastPublishTime, client`log
      ensures !canPublish ==> client.log == old(client.log)
      ensures canPublish ==> client.log == old(client.log) + [Call.Publish(topic, payload, 0, false)]
      ensures if canPublish && client.Reply(|old(client.log)|) == MQTT_ERR_SUCCESS
              then value == payload && lastPublishTime == now
              else value == old(value) && lastPublishTime == old(lastPublishTime)
    {
      var rc := Publish(payload, 0, false);
      if rc == Some(MQTT_ERR_SUCCESS) {
        value := payload;
        lastPublishTime := now;
      }
    }

    /** `_called_from_on_message`: run `on_change` once, then stamp the message time. */
    method CalledFromOnMessage(now: real)
      modifies this`onChangeCalls, this`lastMessageTime
      ensures onChangeCalls == old(onChangeCalls) + 1
      ensures lastMessageTime == now
    {
      onChangeCalls := onChangeCalls + 1;
      lastMessageTime := now;
    }
  }

  // ---------------------------------------------------------------------
  // The registry and the dispatcher
  // ---------------------------------------------------------------------

  /**
   * `sub_dict`: the registry shared between the binder and the dispatcher,
   * pairs of (cell, topic) in insertion order, one pair per cell.
   */
  class SubDict {
    var entries: seq<(Topic, string)>

    ghost predicate Valid()
      reads this
    {
      DistinctKeys(entries)
    }

    constructor ()
      ensures entries == [] && Valid()
    {
      entries := [];
    }
  }

  /**
   * `_note_subscribers`: `sub_dict[subscriber] = topic`. A cell already in
   * the registry gets its topic replaced in place; a new one is appended.
   */
  method NoteSubscribers(topic: string, subscriber: Topic, subDict: SubDict)
    requires subDict.Valid()
    modifies subDict`entries
    ensures subDict.entries == Assign(old(subDict.entries), subscriber, topic)
    ensures subDict.Valid()
    ensures Lookup(subDict.entries, subscriber) == Some(topic)
    ensures forall other: Topic | other != subscriber ::
              Lookup(subDict.entries, other) == Lookup(old(subDict.entries), other)
  {
    forall other: Topic
      ensures Lookup(Assign(subDict.entries, subscriber, topic), other) ==
              if other == subscriber then Some(topic) else Lookup(subDict.entries, other)
    {
      AssignLookup(subDict.entries, subscriber, topic, other);
    }
    AssignLookup(subDict.entries, subscriber, topic, subscriber);
    subDict.entries := Assign(subDict.entries, subscriber, topic);
  }

  /** The cell received the message: payload stored, hook run once, time stamped. */
  twostate predicate Delivered(c: Topic, payload: string, now: real)
    reads c
  {
    c.value == Text(payload) && c.lastMessageTime == now
    && c.onChangeCalls == old(c.onChangeCalls) + 1
  }

  /** The cell kept its value, message time and hook count. */
  twostate predicate Untouched(c: Topic)
    reads c
  {
    c.value == old(c.value) && c.lastMessageTime == old(c.lastMessageTime)
    && c.onChangeCalls == old(c.onChangeCalls)
  }

  /**
   * `call_topic_handler`: every registry entry whose topic equals the
   * message topic gets the decoded payload as its value, then `on_change`
   * once, then the message time; every other entry is left as it was.
   */
  method CallTopicHandler(subDict: SubDict, msgTopic: string, payload: string, now: real)
    requires subDict.Valid()
    modifies Keys(subDict.entries)`value, Keys(subDict.entries)`lastMessageTime,
             Keys(subDict.entries)`onChangeCalls
    ensures forall i | 0 <= i < |subDict.entries| && subDict.entries[i].1 == msgTopic ::
              Delivered(subDict.entries[i].0, payload, now)
    ensures forall i | 0 <= i < |subDict.entries| && subDict.entries[i].1 != msgTopic ::
              Untouched(subDict.entries[i].0)
  {
    var e := subDict.entries;
    var i := 0;
    while i < |e|
      invariant 0 <= i <= |e|
      invariant forall j | 0 <= j < i && e[j].1 == msgTopic :: Delivered(e[j].0, payload, now)
      invariant forall j | 0 <= j < i && e[j].1 != msgTopic :: Untouched(e[j].0)
      invariant forall j | i <= j < |e| :: Untouched(e[j].0)
    {
      var (cell, topic) := e[i];
      if topic == msgTopic {
        cell.value := Text(payload);
        cell.CalledFromOnMessage(now);
      }
      i := i + 1;
    }
  }

  // ---------------------------------------------------------------------
  // Field names and decorator arguments
  // ---------------------------------------------------------------------

  /**
   * `Connect._var_name`: the field name for a topic is the topic with every
   * `/` replaced by `_`; the assertion fails when that is not an identifier.
   */
  function VarName(s: string): (r: Result<string>)
    ensures r.Ok? <==> IsIdentifier(ReplaceSlash(s))
    ensures r.Ok? ==> IsIdentifier(r.value) && |r.value| == |s|
    ensures r.Ok? ==> forall i | 0 <= i < |s| :: r.value[i] == (if s[i] == '/' then '_' else s[i])
    ensures r.Raise? ==> r.exc == AssertionError
  {
    var name := ReplaceSlash(s);
    if IsIdentifier(name) then Ok(name) else Raise(AssertionError)
  }

  /** `"AIR_COND/SOUTH"` is stored in the field `AIR_COND_SOUTH`. */
  lemma VarNameExample()
    ensures VarName("AIR_COND/SOUTH") == Ok("AIR_COND_SOUTH")
  {
    ReplaceSlashExample();
    AirCondSouthIsIdentifier();
  }

  lemma AirCondSouthIsIdentifier()
    ensures IsIdentifier("AIR_COND_SOUTH")
  {
    var n := "AIR_COND_SOUTH";
    assert forall i | 1 <= i < |n| :: IsLetter(n[i]) || n[i] == '_';
  }

  /** A derived field name is its own field name: it has no `/` left. */
  lemma VarNameIdempotent(s: string)
    requires VarName(s).Ok?
    ensures VarName(VarName(s).value) == VarName(s)
  {
    ReplaceSlashIdempotent(s);
  }

  /** Topics that differ only in `/` versus `_` share one field name. */
  lemma VarNameCollision(a: string, b: string)
    requires '/' !in a && '/' !in b
    ensures VarName(a + "/" + b) == VarName(a + "_" + b)
  {
    ReplaceSlashJoin(a, b);
    ReplaceSlashFixesSlashFree(a + "_" + b);
  }

  /** The empty topic and a topic starting with a digit have no field name. */
  lemma VarNameRejects(s: string)
    requires s == [] || IsDigit(s[0])
    ensures VarName(s) == Raise(AssertionError)
  {
    if s != [] {
      assert ReplaceSlash(s)[0] == s[0];
    }
  }

  /** One element of a `subscriptions` or `publications` argument. */
  datatype Item = ItemText(s: string) | ItemOther

  /** A `subscriptions` or `publications` argument, by the shapes `_check_pub_sub_arg` tells apart. */
  datatype Arg =
    | ArgNone
    | ArgText(s: string)
    | ArgIterable(items: seq<Item>)
    | ArgNotIterable

  predicate AllText(items: seq<Item>) {
    forall i | 0 <= i < |items| :: items[i].ItemText?
  }

  function Texts(items: seq<Item>): (r: seq<string>)
    requires AllText(items)
    ensures |r| == |items|
    ensures forall i | 0 <= i < |items| :: r[i] == items[i].s
  {
    if items == [] then [] else [items[0].s] + Texts(items[1..])
  }

  /**
   * `Connect._check_pub_sub_arg`: `None` stays `None`, a lone string `s`
   * becomes `[s]`, an iterable of strings comes back as it was; a
   * non-iterable raises `TypeError` and a non-string element fails the
   * assertion.
   */
  function CheckPubSubArg(arg: Arg): (r: Result<Option<seq<string>>>)
    ensures r == Ok(None) <==> arg.ArgNone?
    ensures arg.ArgText? ==> r == Ok(Some([arg.s]))
    ensures arg.ArgIterable? ==> (r.Ok? <==> AllText(arg.items))
    ensures arg.ArgIterable? && r.Ok? ==>
              r.value.Some? && |r.value.value| == |arg.items|
              && forall i | 0 <= i < |arg.items| :: r.value.value[i] == arg.items[i].s
    ensures arg.ArgNotIterable? <==> r == Raise(TypeError)
    ensures r.Raise? ==> r.exc == TypeError || r.exc == AssertionError
  {
    match arg
    case ArgNone => Ok(None)
    case ArgText(s) => Ok(Some([s]))
    case ArgIterable(items) =>
      if AllText(items) then Ok(Some(Texts(items))) else Raise(AssertionError)
    case ArgNotIterable => Raise(TypeError)
  }

  /** The decorator object: the client, the shared registry and both normalised topic lists. */
  datatype Connect = Connect(
    client: Client,
    subDict: SubDict,
    subscriptions: Option<seq<string>>,
    publications: Option<seq<string>>)

  /**
   * `Connect.__init__`: both arguments are normalised, subscriptions
   * first, and the first failure is the one raised.
   */
  function NewConnect(client: Client, subDict: SubDict, subs: Arg, pubs: Arg): (r: Result<Connect>)
    ensures r.Ok? <==> CheckPubSubArg(subs).Ok? && CheckPubSubArg(pubs).Ok?
    ensures r.Ok? ==> r.value.client == client && r.value.subDict == subDict
    ensures r.Ok? ==> r.value.subscriptions == CheckPubSubArg(subs).value
                      && r.value.publications == CheckPubSubArg(pubs).value
    ensures CheckPubSubArg(subs).Raise? ==> r == Raise(CheckPubSubArg(subs).exc)
  {
    match CheckPubSubArg(subs)
    case Raise(x) => Raise(x)
    case Ok(s) =>
      match CheckPubSubArg(pubs)
      case Raise(x) => Raise(x)
      case Ok(p) => Ok(Connect(client, subDict, s, p))
  }

  // ---------------------------------------------------------------------
  // Decorated objects and the intercepted assignment
  // ---------------------------------------------------------------------

  /** An attribute of a decorated object: a binding cell or a plain value. */
  datatype Attr = Cell(t: Topic) | Plain(v: Value)

  predicate HoldsCell(f: map<string, Attr>, name: string) {
    name in f && f[name].Cell?
  }

  predicate AllPlain(f: map<string, Attr>) {
    forall n | n in f :: f[n].Plain?
  }

  /** The cells a field map holds. */
  function CellsOf(f: map<string, Attr>): (r: set<Topic>)
    ensures forall n | HoldsCell(f, n) :: f[n].t in r
    ensures forall t | t in r :: exists n | n in f :: f[n] == Cell(t)
  {
    set n | n in f && f[n].Cell? :: f[n].t
  }

  /** The cell at `name`, as a set: empty when the field is absent or plain. */
  function CellAt(f: map<string, Attr>, name: string): (r: set<Topic>)
    ensures HoldsCell(f, name) ==> r == {f[name].t}
    ensures !HoldsCell(f, name) ==> r == {}
  {
    if HoldsCell(f, name) then {f[name].t} else {}
  }

  /** The client of the cell at `name`, as a set. */
  function ClientAt(f: map<string, Attr>, name: string): (r: set<Client>)
    ensures HoldsCell(f, name) ==> r == {f[name].t.client}
    ensures !HoldsCell(f, name) ==> r == {}
  {
    if HoldsCell(f, name) then {f[name].t.client} else {}
  }

  /** An instance of a decorated class: its `__dict__` and whether the class defines `on_decorate`. */
  class Instance {
    var fields: map<string, Attr>
    const hasOnDecorate: bool
    /** How many times `on_decorate` has run. */
    ghost var onDecorateCalls: nat

    /** The class's own constructor, which can only assign plain values: no cell exists yet. */
    constructor (init: map<string, Value>, hasOnDecorate: bool)
      ensures fields.Keys == init.Keys
      ensures forall n | n in init :: fields[n] == Plain(init[n])
      ensures AllPlain(fields)
      ensures this.hasOnDecorate == hasOnDecorate && onDecorateCalls == 0
    {
      fields := map n | n in init :: Plain(init[n]);
      this.hasOnDecorate := hasOnDecorate;
      onDecorateCalls := 0;
    }
  }

  /**
   * `setattr_to_publish`: assigning to a field that holds a cell leaves the
   * cell in place and routes the value through its publish-guarded setter;
   * any other assignment stores the plain value in that field alone.
   */
  method SetField(o: Instance, name: string, v: Value, now: real)
    modifies o`fields, CellAt(o.fields, name)`value, CellAt(o.fields, name)`lastPublishTime,
             ClientAt(o.fields, name)`log
    ensures !HoldsCell(old(o.fields), name) ==> o.fields == old(o.fields)[name := Plain(v)]
    ensures HoldsCell(old(o.fields), name) ==> o.fields == old(o.fields)
    ensures HoldsCell(old(o.fields), name) ==>
              var c := o.fields[name].t;
              (c.canPublish ==> c.client.log == old(c.client.log) + [Call.Publish(c.topic, v, 0, false)])
              && (!c.canPublish ==> c.client.log == old(c.client.log))
              && if c.canPublish && c.client.Reply(|old(c.client.log)|) == MQTT_ERR_SUCCESS
                 then c.value == v && c.lastPublishTime == now
                 else c.value == old(c.value) && c.lastPublishTime == old(c.lastPublishTime)
  {
    if name in o.fields && o.fields[name].Cell? {
      var c := o.fields[name].t;
      c.SetValue(v, now);
    } else {
      o.fields := o.fields[name := Plain(v)];
    }
  }

  /**
   * The binder's `setattr(o, name, t)` for a new cell `t`, which goes
   * through the same interception: a free or plain field takes the cell; a
   * field already holding a cell keeps it and the new cell is handed to its
   * setter, which sends nothing when the old cell cannot publish, and
   * otherwise reaches the client with a payload it rejects (`TypeError`).
   */
  method Attach(o: Instance, name: string, t: Topic) returns (err: Option<Exception>)
    modifies o`fields
    ensures !HoldsCell(old(o.fields), name) ==> o.fields == old(o.fields)[name := Cell(t)] && err == None
    ensures HoldsCell(old(o.fields), name) ==> o.fields == old(o.fields)
    ensures HoldsCell(old(o.fields), name) ==>
              err == if o.fields[name].t.canPublish then Some(TypeError) else None
  {
    if name in o.fields && o.fields[name].Cell? {
      err := if o.fields[name].t.canPublish then Some(TypeError) else None;
    } else {
      o.fields := o.fields[name := Cell(t)];
      err := None;
    }
  }

  // ---------------------------------------------------------------------
  // The binder, specified by pure loop models
  // ---------------------------------------------------------------------

  /** The index of the first topic without a field name, or the length when every topic has one. */
  function FirstBad(topics: seq<string>): (r: nat)
    ensures r <= |topics|
    ensures forall j | 0 <= j < r :: VarName(topics[j]).Ok?
    ensures r < |topics| ==> VarName(topics[r]).Raise?
  {
    if topics == [] then 0
    else if VarName(topics[0]).Raise? then 0
    else 1 + FirstBad(topics[1..])
  }

  /** The fields after the binder stores cell `t` under `name`: a field holding a cell keeps it. */
  function AttachField(f: map<string, Attr>, name: string, t: Topic): (r: map<string, Attr>)
    ensures HoldsCell(r, name)
    ensures HoldsCell(f, name) ==> r == f
    ensures !HoldsCell(f, name) ==> r == f[name := Cell(t)]
  {
    if HoldsCell(f, name) then f else f[name := Cell(t)]
  }

  /** Fields and registry entries after the subscription loop. */
  datatype Bound = Bound(fields: map<string, Attr>, entries: seq<(Topic, string)>)

  /** The registry after one subscribe call: the cell is noted only when the call succeeded. */
  function Register(e: seq<(Topic, string)>, cell: Topic, topic: string, ok: bool): (r: seq<(Topic, string)>)
    ensures ok ==> r == Assign(e, cell, topic)
    ensures !ok ==> r == e
  {
    if ok then Assign(e, cell, topic) else e
  }

  /**
   * Registering a cell that was not yet in the registry: afterwards it maps
   * to its topic exactly when the call succeeded, and no other cell's
   * registration changes.
   */
  lemma RegisterNew(e: seq<(Topic, string)>, cell: Topic, topic: string, ok: bool)
    requires DistinctKeys(e) && cell !in Keys(e)
    ensures DistinctKeys(Register(e, cell, topic, ok))
    ensures Lookup(Register(e, cell, topic, ok), cell) == if ok then Some(topic) else None
    ensures forall t | t in Keys(Register(e, cell, topic, ok)) + Keys(e) && t != cell ::
              Lookup(Register(e, cell, topic, ok), t) == Lookup(e, t)
  {
    if ok {
      forall t | t in Keys(Assign(e, cell, topic)) + Keys(e) + {cell}
        ensures Lookup(Assign(e, cell, topic), t) == if t == cell then Some(topic) else Lookup(e, t)
      {
        AssignLookup(e, cell, topic, t);
      }
    }
  }

  /**
   * The subscription loop of `wrapper` over topics whose field names are
   * valid: subscription `j` creates `cells[j]`, attaches it, subscribes
   * (the client answers `reply(base + j)`), and on success registers the
   * cell found in the field.
   */
  function SubLoop(f: map<string, Attr>, e: seq<(Topic, string)>, subs: seq<string>,
                   cells: seq<Topic>, reply: nat -> int, base: nat): (r: Bound)
    requires |cells| == |subs|
    decreases |subs|
  {
    if subs == [] then Bound(f, e)
    else
      var n := |subs| - 1;
      SubStep(SubLoop(f, e, subs[..n], cells[..n], reply, base), subs[n], cells[n],
              reply(base + n) == MQTT_ERR_SUCCESS)
  }

  /** One pass of the subscription loop: attach the cell, then register it if the broker accepted. */
  function SubStep(prev: Bound, sub: string, t: Topic, ok: bool): Bound
  {
    var name := ReplaceSlash(sub);
    var g := AttachField(prev.fields, name, t);
    Bound(g, Register(prev.entries, g[name].t, sub, ok))
  }

  /**
   * One pass of the subscription loop keeps a cell already under the
   * derived name or stores the new one there; the registry gains the cell
   * in that field, with at most one new entry, exactly when the subscribe
   * succeeded, and is unchanged otherwise.
   */
  lemma SubStepEffect(prev: Bound, sub: string, t: Topic, ok: bool)
    ensures var r := SubStep(prev, sub, t, ok);
            && (HoldsCell(prev.fields, ReplaceSlash(sub)) ==> r.fields == prev.fields)
            && (!HoldsCell(prev.fields, ReplaceSlash(sub)) ==> r.fields == prev.fields[ReplaceSlash(sub) := Cell(t)])
            && (ok ==> Keys(r.entries) == Keys(prev.entries) + {r.fields[ReplaceSlash(sub)].t})
            && (ok ==> |prev.entries| <= |r.entries| <= |prev.entries| + 1)
            && (!ok ==> r.entries == prev.entries)
  {
  }

  /**
   * The subscription loop removes no field and no registry entry, and
   * adds at most one registry entry per subscription.
   */
  lemma {:induction false} SubLoopGrows(f: map<string, Attr>, e: seq<(Topic, string)>, subs: seq<string>,
                                        cells: seq<Topic>, reply: nat -> int, base: nat)
    requires |cells| == |subs|
    ensures var r := SubLoop(f, e, subs, cells, reply, base);
            f.Keys <= r.fields.Keys && Keys(e) <= Keys(r.entries) && |e| <= |r.entries| <= |e| + |subs|
    decreases |subs|
  {
    if subs != [] {
      var n := |subs| - 1;
      SubLoopGrows(f, e, subs[..n], cells[..n], reply, base);
    }
  }

  /**
   * Whatever the client answers, every subscription's field holds a cell
   * afterwards, and a field that already held a cell still holds it.
   */
  lemma {:induction false} SubLoopAttachesAll(f: map<string, Attr>, e: seq<(Topic, string)>, subs: seq<string>,
                                              cells: seq<Topic>, reply: nat -> int, base: nat)
    requires |cells| == |subs|
    ensures var r := SubLoop(f, e, subs, cells, reply, base).fields;
            && (forall j | 0 <= j < |subs| :: HoldsCell(r, ReplaceSlash(subs[j])))
            && (forall n | HoldsCell(f, n) :: HoldsCell(r, n) && r[n] == f[n])
    decreases |subs|
  {
    if subs != [] {
      var n := |subs| - 1;
      SubLoopAttachesAll(f, e, subs[..n], cells[..n], reply, base);
      var r := SubLoop(f, e, subs, cells, reply, base).fields;
      forall j | 0 <= j < n
        ensures HoldsCell(r, ReplaceSlash(subs[j]))
      {
        assert subs[..n][j] == subs[j];
      }
    }
  }

  /** Pairwise distinct field names. */
  predicate DistinctNames(topics: seq<string>) {
    forall i, j | 0 <= i < j < |topics| :: ReplaceSlash(topics[i]) != ReplaceSlash(topics[j])
  }

  /** On an object without cells, a name no subscription derives to holds no cell afterwards. */
  lemma {:induction false} SubLoopLeavesOtherNames(f: map<string, Attr>, e: seq<(Topic, string)>,
                                                   subs: seq<string>, cells: seq<Topic>,
                                                   reply: nat -> int, base: nat, name: string)
    requires |cells| == |subs| && AllPlain(f)
    requires forall j | 0 <= j < |subs| :: ReplaceSlash(subs[j]) != name
    ensures !HoldsCell(SubLoop(f, e, subs, cells, reply, base).fields, name)
    decreases |subs|
  {
    if subs != [] {
      var n := |subs| - 1;
      SubLoopLeavesOtherNames(f, e, subs[..n], cells[..n], reply, base, name);
    }
  }

  /**
   * On an object without cells, when no two subscriptions share a field
   * name, subscription `j` is stored under its own field name as its own
   * fresh cell, whatever the subscribe call answered; fields of other names
   * keep their values.
   */
  lemma {:induction false} SubLoopAttachesOwnCell(f: map<string, Attr>, e: seq<(Topic, string)>,
                                                  subs: seq<string>, cells: seq<Topic>,
                                                  reply: nat -> int, base: nat)
    requires |cells| == |subs| && AllPlain(f) && DistinctNames(subs)
    ensures var r := SubLoop(f, e, subs, cells, reply, base).fields;
            && (forall j | 0 <= j < |subs| :: ReplaceSlash(subs[j]) in r && r[ReplaceSlash(subs[j])] == Cell(cells[j]))
            && (forall n | n in f && (forall j | 0 <= j < |subs| :: ReplaceSlash(subs[j]) != n) ::
                  n in r && r[n] == f[n])
    decreases |subs|
  {
    if subs != [] {
      var n := |subs| - 1;
      var subs', cells' := subs[..n], cells[..n];
      assert DistinctNames(subs');
      SubLoopAttachesOwnCell(f, e, subs', cells', reply, base);
      var prev := SubLoop(f, e, subs', cells', reply, base).fields;
      var name := ReplaceSlash(subs[n]);
      SubLoopLeavesOtherNames(f, e, subs', cells', reply, base, name);
      var r := SubLoop(f, e, subs, cells, reply, base).fields;
      assert r == prev[name := Cell(cells[n])];
      forall j | 0 <= j < n
        ensures ReplaceSlash(subs[j]) in r && r[ReplaceSlash(subs[j])] == Cell(cells[j])
      {
        assert subs'[j] == subs[j] && cells'[j] == cells[j];
      }
    }
  }

  /** On an object without cells and with distinct field names, the last subscription registers its own cell. */
  lemma SubLoopEntriesStep(f: map<string, Attr>, e: seq<(Topic, string)>, subs: seq<string>,
                           cells: seq<Topic>, reply: nat -> int, base: nat)
    requires |cells| == |subs| > 0 && AllPlain(f) && DistinctNames(subs)
    ensures var n := |subs| - 1;
            SubLoop(f, e, subs, cells, reply, base).entries ==
            Register(SubLoop(f, e, subs[..n], cells[..n], reply, base).entries, cells[n], subs[n],
                     reply(base + n) == MQTT_ERR_SUCCESS)
  {
    var n := |subs| - 1;
    SubLoopLeavesOtherNames(f, e, subs[..n], cells[..n], reply, base, ReplaceSlash(subs[n]));
    SubLoopLast(f, e, subs, cells, reply, base);
  }

  /**
   * `r` is the registry `e` after the subscriptions `subs` with cells
   * `cells`: one entry per cell, subscription `j`'s cell registered with
   * its topic exactly when the client answered `MQTT_ERR_SUCCESS`, every
   * other cell as in `e` (a cell in neither registry is absent from both).
   */
  ghost predicate RegisteredAfter(r: seq<(Topic, string)>, e: seq<(Topic, string)>, subs: seq<string>,
                                  cells: seq<Topic>, reply: nat -> int, base: nat)
    requires |cells| == |subs|
  {
    && DistinctKeys(r)
    && (forall j | 0 <= j < |subs| ::
          Lookup(r, cells[j]) == if reply(base + j) == MQTT_ERR_SUCCESS then Some(subs[j]) else None)
    && (forall t | t in Keys(r) + Keys(e) && t !in cells :: Lookup(r, t) == Lookup(e, t))
  }

  /** The subscriptions before the last keep their registrations when `r` differs from `prev` only at the last cell. */
  lemma EarlierCellsKeepTopics(prev: seq<(Topic, string)>, r: seq<(Topic, string)>,
                               subs: seq<string>, cells: seq<Topic>, reply: nat -> int, base: nat)
    requires |cells| == |subs| > 0
    requires forall j | 0 <= j < |subs| - 1 ::
               Lookup(prev, cells[j]) == if reply(base + j) == MQTT_ERR_SUCCESS then Some(subs[j]) else None
    requires cells[|subs| - 1] !in cells[..|subs| - 1]
    requires forall t | t in Keys(r) + Keys(prev) && t != cells[|subs| - 1] :: Lookup(r, t) == Lookup(prev, t)
    ensures forall j | 0 <= j < |subs| - 1 ::
              Lookup(r, cells[j]) == if reply(base + j) == MQTT_ERR_SUCCESS then Some(subs[j]) else None
  {
    var n := |subs| - 1;
    forall j | 0 <= j < n
      ensures Lookup(r, cells[j]) == if reply(base + j) == MQTT_ERR_SUCCESS then Some(subs[j]) else None
    {
      assert cells[..n][j] == cells[j];
      if cells[j] !in Keys(r) + Keys(prev) {
        assert Lookup(prev, cells[j]) == None;
      }
    }
  }

  /** Cells outside `cells` keep the registration they had in `e`. */
  lemma OtherCellsKeepTopics(prev: seq<(Topic, string)>, r: seq<(Topic, string)>, e: seq<(Topic, string)>,
                             cells: seq<Topic>)
    requires |cells| > 0
    requires forall t | t in Keys(prev) + Keys(e) && t !in cells[..|cells| - 1] :: Lookup(prev, t) == Lookup(e, t)
    requires forall t | t in Keys(r) + Keys(prev) && t != cells[|cells| - 1] :: Lookup(r, t) == Lookup(prev, t)
    ensures forall t | t in Keys(r) + Keys(e) && t !in cells :: Lookup(r, t) == Lookup(e, t)
  {
    var n := |cells| - 1;
    forall t | t in Keys(r) + Keys(e) && t !in cells
      ensures Lookup(r, t) == Lookup(e, t)
    {
      assert t != cells[n] && t !in cells[..n];
      if t !in Keys(r) + Keys(prev) {
        assert Lookup(prev, t) == None;
      }
    }
  }

  /**
   * A registry `r` that differs from `prev` only at one new cell, which maps
   * to its topic exactly when its subscribe call succeeded, extends
   * `RegisteredAfter` by that subscription.
   */
  lemma RegisteredAfterStep(prev: seq<(Topic, string)>, r: seq<(Topic, string)>, e: seq<(Topic, string)>,
                            subs: seq<string>, cells: seq<Topic>, reply: nat -> int, base: nat)
    requires |cells| == |subs| > 0
    requires RegisteredAfter(prev, e, subs[..|subs| - 1], cells[..|subs| - 1], reply, base)
    requires cells[|subs| - 1] !in cells[..|subs| - 1] && cells[|subs| - 1] !in Keys(e)
    requires DistinctKeys(r)
    requires Lookup(r, cells[|subs| - 1]) ==
             if reply(base + |subs| - 1) == MQTT_ERR_SUCCESS then Some(subs[|subs| - 1]) else None
    requires forall t | t in Keys(r) + Keys(prev) && t != cells[|subs| - 1] :: Lookup(r, t) == Lookup(prev, t)
    ensures RegisteredAfter(r, e, subs, cells, reply, base)
  {
    var n := |subs| - 1;
    var subs', cells' := subs[..n], cells[..n];
    assert forall j | 0 <= j < n :: cells'[j] == cells[j] && subs'[j] == subs[j];
    EarlierCellsKeepTopics(prev, r, subs, cells, reply, base);
    OtherCellsKeepTopics(prev, r, e, cells);
  }

  /** Registering the next new cell after its subscribe call extends `RegisteredAfter` by it. */
  lemma RegisterOneMore(prev: seq<(Topic, string)>, e: seq<(Topic, string)>, subs: seq<string>,
                        cells: seq<Topic>, reply: nat -> int, base: nat)
    requires |cells| == |subs| > 0
    requires RegisteredAfter(prev, e, subs[..|subs| - 1], cells[..|subs| - 1], reply, base)
    requires cells[|subs| - 1] !in cells[..|subs| - 1] && cells[|subs| - 1] !in Keys(e)
    ensures RegisteredAfter(Register(prev, cells[|subs| - 1], subs[|subs| - 1],
                                     reply(base + |subs| - 1) == MQTT_ERR_SUCCESS),
                            e, subs, cells, reply, base)
  {
    var n := |subs| - 1;
    var c := cells[n];
    assert c !in Keys(prev) by {
      if c in Keys(prev) {
        assert false;
      }
    }
    RegisterNew(prev, c, subs[n], reply(base + n) == MQTT_ERR_SUCCESS);
    RegisteredAfterStep(prev, Register(prev, c, subs[n], reply(base + n) == MQTT_ERR_SUCCESS),
                        e, subs, cells, reply, base);
  }

  /**
   * When no two subscriptions share a field name and the cells are new,
   * the registry afterwards holds subscription `j`'s cell with its topic
   * exactly when the client answered `MQTT_ERR_SUCCESS`, and every other
   * registration is as it was.
   */
  lemma {:induction false} SubLoopRegistersSuccesses(f: map<string, Attr>, e: seq<(Topic, string)>,
                                                     subs: seq<string>, cells: seq<Topic>,
                                                     reply: nat -> int, base: nat)
    requires |cells| == |subs| && AllPlain(f) && DistinctNames(subs) && DistinctKeys(e)
    requires forall i, j | 0 <= i < j < |cells| :: cells[i] != cells[j]
    requires forall j | 0 <= j < |cells| :: cells[j] !in Keys(e)
    ensures RegisteredAfter(SubLoop(f, e, subs, cells, reply, base).entries, e, subs, cells, reply, base)
    decreases |subs|
  {
    if subs != [] {
      var n := |subs| - 1;
      assert DistinctNames(subs[..n]);
      SubLoopRegistersSuccesses(f, e, subs[..n], cells[..n], reply, base);
      SubLoopEntriesStep(f, e, subs, cells, reply, base);
      assert cells[n] !in cells[..n];
      RegisterOneMore(SubLoop(f, e, subs[..n], cells[..n], reply, base).entries, e, subs, cells, reply, base);
    }
  }

  /** Fields after the publication loop, and the cells that may now publish. */
  datatype Published = Published(fields: map<string, Attr>, publishable: set<Topic>)

  /**
   * One step of the publication loop of `wrapper`, for publication `pub`
   * with `cell` the new cell made for it when it is not a subscription.
   * A membership test against absent subscriptions raises `TypeError`; a
   * publication that is also a subscription marks the cell in its field
   * as publishable (a missing field is a `KeyError`, a plain one an
   * `AttributeError`); any other publication attaches its new cell when
   * its name holds no cell, and leaves an existing non-publishing cell
   * unchanged (the new cell goes through that cell's setter and is
   * dropped).
   */
  function PubStep(st: Published, subs: Option<seq<string>>, pub: string, cell: Topic): (r: Result<Published>)
    ensures r.Ok? ==> r.value.publishable >= st.publishable
    ensures r.Ok? ==> forall n | HoldsCell(st.fields, n) :: HoldsCell(r.value.fields, n) && r.value.fields[n] == st.fields[n]
    ensures r.Ok? ==> forall n | HoldsCell(r.value.fields, n) && !HoldsCell(st.fields, n) ::
                        r.value.fields[n].t in r.value.publishable
    ensures r.Ok? ==> HoldsCell(r.value.fields, ReplaceSlash(pub))
    ensures r.Ok? && ((subs.Some? && pub in subs.value) || !HoldsCell(st.fields, ReplaceSlash(pub))) ==>
              r.value.fields[ReplaceSlash(pub)].t in r.value.publishable
  {
    if subs.None? then Raise(TypeError)
    else
      var name := ReplaceSlash(pub);
      if !IsIdentifier(name) then Raise(AssertionError)
      else if pub in subs.value then
        if name !in st.fields then Raise(KeyError)
        else if st.fields[name].Plain? then Raise(AttributeError)
        else Ok(Published(st.fields, st.publishable + {st.fields[name].t}))
      else if HoldsCell(st.fields, name) then
        if st.fields[name].t in st.publishable then Raise(TypeError) else Ok(st)
      else Ok(Published(st.fields[name := Cell(cell)], st.publishable + {cell}))
  }

  /** The publication loop of `wrapper`: the steps in order, stopping at the first exception. */
  function PubLoop(st: Published, subs: Option<seq<string>>, pubs: seq<string>, cells: seq<Topic>): (r: Result<Published>)
    requires |cells| == |pubs|
    ensures r.Ok? ==> r.value.publishable >= st.publishable
    ensures r.Ok? ==> forall n | HoldsCell(st.fields, n) :: HoldsCell(r.value.fields, n) && r.value.fields[n] == st.fields[n]
    ensures r.Ok? ==> forall n | HoldsCell(r.value.fields, n) && !HoldsCell(st.fields, n) ::
                        r.value.fields[n].t in r.value.publishable
    decreases |pubs|
  {
    if pubs == [] then Ok(st)
    else
      var n := |pubs| - 1;
      match PubLoop(st, subs, pubs[..n], cells[..n])
      case Raise(x) => Raise(x)
      case Ok(mid) => PubStep(mid, subs, pubs[n], cells[n])
  }

  /**
   * A decorated class with publications but no subscriptions cannot be
   * instantiated: the first publication's membership test raises `TypeError`.
   */
  lemma {:induction false} PubLoopWithoutSubscriptions(st: Published, pubs: seq<string>, cells: seq<Topic>)
    requires |cells| == |pubs| > 0
    ensures PubLoop(st, None, pubs, cells) == Raise(TypeError)
    decreases |pubs|
  {
    var n := |pubs| - 1;
    if n > 0 {
      PubLoopWithoutSubscriptions(st, pubs[..n], cells[..n]);
    }
  }

  /**
   * After a loop that raised nothing, every publication's field holds a
   * cell; that cell may publish when the publication is a subscription or
   * its field held no cell before the loop.
   */
  lemma {:induction false} PubLoopPublishesAll(st: Published, subs: Option<seq<string>>, pubs: seq<string>, cells: seq<Topic>)
    requires |cells| == |pubs| && PubLoop(st, subs, pubs, cells).Ok?
    ensures var r := PubLoop(st, subs, pubs, cells).value;
            forall j | 0 <= j < |pubs| :: HoldsCell(r.fields, ReplaceSlash(pubs[j]))
    ensures var r := PubLoop(st, subs, pubs, cells).value;
            forall j | 0 <= j < |pubs| && ((subs.Some? && pubs[j] in subs.value) || !HoldsCell(st.fields, ReplaceSlash(pubs[j]))) ::
              r.fields[ReplaceSlash(pubs[j])].t in r.publishable
    decreases |pubs|
  {
    if pubs != [] {
      var n := |pubs| - 1;
      var pubs', cells' := pubs[..n], cells[..n];
      PubLoopPublishesAll(st, subs, pubs', cells');
      var mid := PubLoop(st, subs, pubs', cells').value;
      var r := PubLoop(st, subs, pubs, cells).value;
      assert r == PubStep(mid, subs, pubs[n], cells[n]).value;
      var name := ReplaceSlash(pubs[n]);
      if !(subs.Some? && pubs[n] in subs.value) && !HoldsCell(st.fields, name) {
        assert !HoldsCell(mid.fields, name) by {
          if HoldsCell(mid.fields, name) {
            assert false;
          }
        }
      }
      forall j | 0 <= j < n
        ensures HoldsCell(r.fields, ReplaceSlash(pubs[j]))
        ensures (subs.Some? && pubs[j] in subs.value) || !HoldsCell(st.fields, ReplaceSlash(pubs[j])) ==>
                r.fields[ReplaceSlash(pubs[j])].t in r.publishable
      {
        assert pubs'[j] == pubs[j];
      }
    }
  }

  /**
   * A publication that is also a subscription shares the subscription's
   * cell: after a loop that raised nothing, its field still holds the cell
   * it held before the loop, and that cell may now publish.
   */
  lemma PubLoopSharesSubscribedCell(st: Published, subs: seq<string>, pubs: seq<string>,
                                    cells: seq<Topic>, j: nat)
    requires |cells| == |pubs| && j < |pubs| && pubs[j] in subs
    requires HoldsCell(st.fields, ReplaceSlash(pubs[j]))
    requires PubLoop(st, Some(subs), pubs, cells).Ok?
    ensures var r := PubLoop(st, Some(subs), pubs, cells).value;
            r.fields[ReplaceSlash(pubs[j])] == st.fields[ReplaceSlash(pubs[j])]
            && st.fields[ReplaceSlash(pubs[j])].t in r.publishable
  {
    PubLoopPublishesAll(st, Some(subs), pubs, cells);
  }

  /** Every cell the publication loop attaches under a new name is one of the loop's new cells. */
  lemma {:induction false} PubLoopNewCellsFromList(st: Published, subs: Option<seq<string>>, pubs: seq<string>,
                                                   cells: seq<Topic>)
    requires |cells| == |pubs| && PubLoop(st, subs, pubs, cells).Ok?
    ensures var r := PubLoop(st, subs, pubs, cells).value;
            forall n | HoldsCell(r.fields, n) && !HoldsCell(st.fields, n) :: r.fields[n].t in cells
    ensures PubLoop(st, subs, pubs, cells).value.publishable <= st.publishable + CellsOf(st.fields) + set c | c in cells
    decreases |pubs|
  {
    if pubs != [] {
      var n := |pubs| - 1;
      var pubs', cells' := pubs[..n], cells[..n];
      PubLoopNewCellsFromList(st, subs, pubs', cells');
      var mid := PubLoop(st, subs, pubs', cells').value;
      var r := PubLoop(st, subs, pubs, cells).value;
      assert r == PubStep(mid, subs, pubs[n], cells[n]).value;
      assert forall c | c in cells' :: c in cells;
    }
  }

  /**
   * A cell that does not yet publish, that is not one of the loop's new
   * cells, and whose field no shared publication names, is still without
   * permission after the publication loop. In particular a publication
   * outside the subscriptions whose derived name already holds such a cell
   * (`"A/B"` beside subscription `"A_B"`) does not grant it permission.
   */
  lemma {:induction false} PubLoopSharedNameGetsNoPermission(st: Published, subs: seq<string>, pubs: seq<string>,
                                                             cells: seq<Topic>, c: Topic)
    requires |cells| == |pubs| && PubLoop(st, Some(subs), pubs, cells).Ok?
    requires c !in st.publishable && c !in cells
    requires forall j | 0 <= j < |pubs| && pubs[j] in subs ::
               !(ReplaceSlash(pubs[j]) in st.fields && st.fields[ReplaceSlash(pubs[j])] == Cell(c))
    ensures c !in PubLoop(st, Some(subs), pubs, cells).value.publishable
    decreases |pubs|
  {
    if pubs != [] {
      var n := |pubs| - 1;
      var pubs', cells' := pubs[..n], cells[..n];
      forall j | 0 <= j < |pubs'| && pubs'[j] in subs
        ensures !(ReplaceSlash(pubs'[j]) in st.fields && st.fields[ReplaceSlash(pubs'[j])] == Cell(c))
      {
        assert pubs'[j] == pubs[j];
      }
      assert c !in cells';
      PubLoopSharedNameGetsNoPermission(st, subs, pubs', cells', c);
      PubLoopNewCellsFromList(st, Some(subs), pubs', cells');
      var mid := PubLoop(st, Some(subs), pubs', cells').value;
      assert PubLoop(st, Some(subs), pubs, cells) == PubStep(mid, Some(subs), pubs[n], cells[n]);
      var name := ReplaceSlash(pubs[n]);
      if pubs[n] in subs && HoldsCell(mid.fields, name) && !HoldsCell(st.fields, name) {
        assert mid.fields[name].t in cells';
      }
      PubStepKeepsUnpublishable(mid, subs, pubs[n], cells[n], c);
    }
  }

  /** One publication grants no permission to a cell that is neither its new cell nor the cell under a shared name. */
  lemma PubStepKeepsUnpublishable(st: Published, subs: seq<string>, pub: string, cell: Topic, c: Topic)
    requires PubStep(st, Some(subs), pub, cell).Ok?
    requires c !in st.publishable && c != cell
    requires pub in subs && ReplaceSlash(pub) in st.fields ==> st.fields[ReplaceSlash(pub)] != Cell(c)
    ensures c !in PubStep(st, Some(subs), pub, cell).value.publishable
  {
  }

  /** The case above for a publication `"A/B"` beside the subscription `"A_B"`: nothing changes. */
  lemma PubLoopSlashTwinExample(c: Topic, cell: Topic)
    ensures var st := Published(map["A_B" := Cell(c)], {});
            PubLoop(st, Some(["A_B"]), ["A/B"], [cell]) == Ok(st)
  {
    ReplaceSlashJoin("A", "B");
    assert "A" + "/" + "B" == "A/B" && "A" + "_" + "B" == "A_B";
    var st := Published(map["A_B" := Cell(c)], {});
    assert ["A/B"][..0] == [] && [cell][..0] == [];
    assert "A/B" !in ["A_B"];
    assert IsIdentifier("A_B");
  }

  /** A field no publication derives to gains no cell in the publication loop. */
  lemma {:induction false} PubLoopLeavesOtherNames(st: Published, subs: Option<seq<string>>, pubs: seq<string>,
                                                   cells: seq<Topic>, name: string)
    requires |cells| == |pubs| && PubLoop(st, subs, pubs, cells).Ok?
    requires forall k | 0 <= k < |pubs| :: ReplaceSlash(pubs[k]) != name
    requires !HoldsCell(st.fields, name)
    ensures !HoldsCell(PubLoop(st, subs, pubs, cells).value.fields, name)
    decreases |pubs|
  {
    if pubs != [] {
      var n := |pubs| - 1;
      PubLoopLeavesOtherNames(st, subs, pubs[..n], cells[..n], name);
    }
  }

  /**
   * A publication outside the subscriptions whose field held no cell, and
   * whose field name no earlier publication shares, gets its own new cell.
   */
  lemma {:induction false} PubLoopAttachesNewCell(st: Published, subs: seq<string>, pubs: seq<string>,
                                                  cells: seq<Topic>, j: nat)
    requires |cells| == |pubs| && j < |pubs| && pubs[j] !in subs
    requires !HoldsCell(st.fields, ReplaceSlash(pubs[j]))
    requires forall k | 0 <= k < j :: ReplaceSlash(pubs[k]) != ReplaceSlash(pubs[j])
    requires PubLoop(st, Some(subs), pubs, cells).Ok?
    ensures var r := PubLoop(st, Some(subs), pubs, cells).value;
            ReplaceSlash(pubs[j]) in r.fields && r.fields[ReplaceSlash(pubs[j])] == Cell(cells[j])
    decreases |pubs|
  {
    var n := |pubs| - 1;
    var pubs', cells' := pubs[..n], cells[..n];
    var mid := PubLoop(st, Some(subs), pubs', cells').value;
    var r := PubStep(mid, Some(subs), pubs[n], cells[n]);
    assert PubLoop(st, Some(subs), pubs, cells) == r;
    var name := ReplaceSlash(pubs[j]);
    if j < n {
      assert pubs'[j] == pubs[j] && cells'[j] == cells[j];
      PubLoopAttachesNewCell(st, subs, pubs', cells', j);
      assert HoldsCell(mid.fields, name);
    } else {
      forall k | 0 <= k < n ensures ReplaceSlash(pubs'[k]) != name {
        assert pubs'[k] == pubs[k];
      }
      PubLoopLeavesOtherNames(st, Some(subs), pubs', cells', name);
      assert r.value.fields == mid.fields[name := Cell(cells[n])];
    }
  }

  /** One more subscription, in terms of the state before it. */
  lemma SubLoopNext(f: map<string, Attr>, e: seq<(Topic, string)>, done: seq<string>, cells: seq<Topic>,
                    sub: string, t: Topic, reply: nat -> int, base: nat, ok: bool,
                    f1: map<string, Attr>, e1: seq<(Topic, string)>, f2: map<string, Attr>, e2: seq<(Topic, string)>)
    requires |cells| == |done| && ok == (reply(base + |done|) == MQTT_ERR_SUCCESS)
    requires SubLoop(f, e, done, cells, reply, base) == Bound(f1, e1)
    requires f2 == AttachField(f1, ReplaceSlash(sub), t)
    requires e2 == Register(e1, f2[ReplaceSlash(sub)].t, sub, ok)
    ensures SubLoop(f, e, done + [sub], cells + [t], reply, base) == Bound(f2, e2)
  {
    var s, cs := done + [sub], cells + [t];
    assert s[..|done|] == done && cs[..|done|] == cells;
    assert s[|done|] == sub && cs[|done|] == t;
    SubLoopLast(f, e, s, cs, reply, base);
  }

  /** The subscription loop's last step, in terms of the state before it. */
  lemma SubLoopLast(f: map<string, Attr>, e: seq<(Topic, string)>, subs: seq<string>, cells: seq<Topic>,
                    reply: nat -> int, base: nat)
    requires |cells| == |subs| > 0
    ensures var n := |subs| - 1;
            SubLoop(f, e, subs, cells, reply, base) ==
            SubStep(SubLoop(f, e, subs[..n], cells[..n], reply, base), subs[n], cells[n],
                    reply(base + n) == MQTT_ERR_SUCCESS)
  {
  }

  /** A cell the subscription loop made for `topic`, before any publication is considered. */
  ghost predicate SubscriptionCell(t: Topic, topic: string, client: Client, listedAt: SubDict?)
    reads t
  {
    && t.topic == topic && t.client == client && t.isSubscribed && !t.canPublish && t.listedAt == listedAt
    && t.value == Text(NO_MESSAGE_RECEIVED) && t.onChangeCalls == 0
    && t.lastMessageTime == 0.0 && t.lastPublishTime == 0.0
  }

  /**
   * The cells the subscription loop made, one per subscription in order;
   * the j-th is listed in the registry exactly when the j-th subscribe
   * call, numbered from `base` in the client's log, succeeded.
   */
  ghost predicate SubscriptionCells(cells: seq<Topic>, subs: seq<string>, client: Client, d: SubDict, base: nat)
    requires |cells| <= |subs|
    reads cells
  {
    forall j | 0 <= j < |cells| ::
      SubscriptionCell(cells[j], subs[j], client, if client.Reply(base + j) == MQTT_ERR_SUCCESS then d else null)
  }

  /** The subscription cells grow by one cell per subscription. */
  lemma SubscriptionCellsSnoc(cells: seq<Topic>, subs: seq<string>, client: Client, d: SubDict, base: nat,
                               t: Topic, ok: bool)
    requires |cells| < |subs| && SubscriptionCells(cells, subs, client, d, base)
    requires ok == (client.Reply(base + |cells|) == MQTT_ERR_SUCCESS)
    requires SubscriptionCell(t, subs[|cells|], client, if ok then d else null)
    ensures SubscriptionCells(cells + [t], subs, client, d, base)
  {
  }

  /**
   * A cell the publication loop made for `topic`, apart from its publish
   * permission (which `PublishFlags` tracks).
   */
  ghost predicate PublicationCell(t: Topic, topic: string, client: Client)
    reads t`isSubscribed, t`listedAt, t`value, t`onChangeCalls, t`lastMessageTime, t`lastPublishTime
  {
    && t.topic == topic && t.client == client && !t.isSubscribed && t.listedAt == null
    && t.value == Text(NO_MESSAGE_RECEIVED) && t.onChangeCalls == 0
    && t.lastMessageTime == 0.0 && t.lastPublishTime == 0.0
  }

  /**
   * One pass of the subscription loop of `wrapper` for a topic with a
   * field name: a new subscribed cell is attached under that name (a field
   * already holding a cell keeps it), the client is asked to subscribe,
   * and on `MQTT_ERR_SUCCESS` the cell in the field is registered and the
   * new cell marked as listed.
   */
  method SubscribeOne(c: Connect, o: Instance, sub: string) returns (t: Topic, ghost ok: bool)
    requires VarName(sub).Ok? && c.subDict.Valid()
    requires HoldsCell(o.fields, ReplaceSlash(sub)) ==> !o.fields[ReplaceSlash(sub)].t.canPublish
    modifies o`fields, c.client`log, c.subDict`entries
    ensures fresh(t)
    ensures ok == (c.client.Reply(|old(c.client.log)|) == MQTT_ERR_SUCCESS)
    ensures SubscriptionCell(t, sub, c.client, if ok then c.subDict else null)
    ensures o.fields == AttachField(old(o.fields), ReplaceSlash(sub), t)
    ensures c.client.log == old(c.client.log) + [Call.Subscribe(sub)]
    ensures c.subDict.entries == Register(old(c.subDict.entries), o.fields[ReplaceSlash(sub)].t, sub, ok)
    ensures c.subDict.Valid()
  {
    t := new Topic(sub, c.client);
    t.isSubscribed := true;
    var rc := AttachAndSubscribe(c, o, sub, t);
    ok := rc == MQTT_ERR_SUCCESS;
    if rc == MQTT_ERR_SUCCESS {
      t.listedAt := c.subDict;
    }
  }

  /**
   * The part of one subscription pass that leaves the new cell `t` itself
   * alone: `t` is attached under the field name, the client is asked to
   * subscribe, and on success the cell in the field is registered.
   */
  method AttachAndSubscribe(c: Connect, o: Instance, sub: string, t: Topic) returns (rc: int)
    requires VarName(sub).Ok? && c.subDict.Valid()
    requires HoldsCell(o.fields, ReplaceSlash(sub)) ==> !o.fields[ReplaceSlash(sub)].t.canPublish
    modifies o`fields, c.client`log, c.subDict`entries
    ensures rc == c.client.Reply(|old(c.client.log)|)
    ensures o.fields == AttachField(old(o.fields), ReplaceSlash(sub), t)
    ensures c.client.log == old(c.client.log) + [Call.Subscribe(sub)]
    ensures c.subDict.entries ==
            Register(old(c.subDict.entries), o.fields[ReplaceSlash(sub)].t, sub, rc == MQTT_ERR_SUCCESS)
    ensures c.subDict.Valid()
  {
    var name := VarName(sub).value;
    var attached := Attach(o, name, t);
    assert attached.None?;
    rc := c.client.Subscribe(sub);
    if rc == MQTT_ERR_SUCCESS {
      NoteSubscribers(sub, o.fields[name].t, c.subDict);
    }
  }

  /**
   * The fields, registry entries and client log after the first `k` passes
   * of the subscription loop, started on fields `f0`, registry `e0` and
   * client log `log0`: they are the ones `SubLoop` describes, every field
   * holding a cell holds one of the `k` distinct cells made so far, and the
   * registry has one entry per cell.
   */
  ghost predicate Progress(fields: map<string, Attr>, entries: seq<(Topic, string)>, log: seq<Call>,
                           subs: seq<string>, k: nat, cells: seq<Topic>, reply: nat -> int,
                           f0: map<string, Attr>, e0: seq<(Topic, string)>, log0: seq<Call>)
  {
    && k <= |subs| && |cells| == k && k <= FirstBad(subs)
    && log == log0 + SubscribeCalls(subs[..k])
    && Bound(fields, entries) == SubLoop(f0, e0, subs[..k], cells, reply, |log0|)
    && DistinctKeys(entries)
    && (forall i, j | 0 <= i < j < k :: cells[i] != cells[j])
    && (forall n | HoldsCell(fields, n) :: fields[n].t in cells)
  }

  /** One more pass of the subscription loop keeps `Progress`. */
  lemma ProgressStep(fields: map<string, Attr>, entries: seq<(Topic, string)>, log: seq<Call>,
                     subs: seq<string>, k: nat, cells: seq<Topic>, reply: nat -> int,
                     f0: map<string, Attr>, e0: seq<(Topic, string)>, log0: seq<Call>,
                     t: Topic, ok: bool, fields': map<string, Attr>, entries': seq<(Topic, string)>)
    requires Progress(fields, entries, log, subs, k, cells, reply, f0, e0, log0)
    requires k < |subs| && VarName(subs[k]).Ok? && t !in cells
    requires ok == (reply(|log0| + k) == MQTT_ERR_SUCCESS)
    requires fields' == AttachField(fields, ReplaceSlash(subs[k]), t)
    requires entries' == Register(entries, fields'[ReplaceSlash(subs[k])].t, subs[k], ok)
    requires DistinctKeys(entries')
    ensures Progress(fields', entries', log + [Call.Subscribe(subs[k])], subs, k + 1, cells + [t], reply, f0, e0, log0)
  {
    var sub := subs[k];
    assert subs[..k + 1] == subs[..k] + [sub];
    assert SubscribeCalls(subs[..k + 1]) == SubscribeCalls(subs[..k]) + [Call.Subscribe(sub)] by {
      assert subs[..k + 1][..k] == subs[..k];
    }
    SubLoopNext(f0, e0, subs[..k], cells, sub, t, reply, |log0|, ok, fields, entries, fields', entries');
    if k + 1 > FirstBad(subs) {
      assert false;
    }
  }

  /** The state after the first `k` passes of the subscription loop, heap included. */
  ghost predicate SubState(c: Connect, o: Instance, subs: seq<string>, k: nat, cells: seq<Topic>,
                           f0: map<string, Attr>, e0: seq<(Topic, string)>, log0: seq<Call>)
    reads o, c.client, c.subDict, cells
  {
    && Progress(o.fields, c.subDict.entries, c.client.log, subs, k, cells, c.client.reply, f0, e0, log0)
    && SubscriptionCells(cells, subs, c.client, c.subDict, |log0|)
  }

  /** One pass of the subscription loop, for a subscription with a field name. */
  method SubscribeStep(c: Connect, o: Instance, subs: seq<string>, k: nat, ghost cells: seq<Topic>,
                       ghost f0: map<string, Attr>, ghost e0: seq<(Topic, string)>, ghost log0: seq<Call>)
    returns (t: Topic)
    requires k < |subs| && VarName(subs[k]).Ok?
    requires SubState(c, o, subs, k, cells, f0, e0, log0)
    modifies o`fields, c.client`log, c.subDict`entries
    ensures fresh(t)
    ensures SubState(c, o, subs, k + 1, cells + [t], f0, e0, log0)
  {
    ghost var f1, e1, l1 := o.fields, c.subDict.entries, c.client.log;
    assert |l1| == |log0| + k == |log0| + |cells|;
    assert HoldsCell(o.fields, ReplaceSlash(subs[k])) ==> o.fields[ReplaceSlash(subs[k])].t in cells;
    ghost var ok;
    t, ok := SubscribeOne(c, o, subs[k]);
    SubscriptionCellsSnoc(cells, subs, c.client, c.subDict, |log0|, t, ok);
    ProgressStep(f1, e1, l1, subs, k, cells, c.client.reply, f0, e0, log0, t, ok, o.fields, c.subDict.entries);
  }

  /**
   * The subscription loop of `wrapper`: for each subscription in turn, a
   * new subscribed cell is stored under the subscription's field name, the
   * client is asked to subscribe, and the cell is registered on success.
   * A subscription whose field name is not an identifier raises
   * `AssertionError` and ends the loop, after the passes before it.
   */
  method AttachSubscriptions(c: Connect, o: Instance, subs: seq<string>)
    returns (err: Option<Exception>, ghost cells: seq<Topic>)
    requires AllPlain(o.fields) && c.subDict.Valid()
    modifies o`fields, c.client`log, c.subDict`entries
    ensures |cells| == FirstBad(subs)
    ensures err == if |cells| < |subs| then Some(AssertionError) else None
    ensures SubState(c, o, subs, |cells|, cells, old(o.fields), old(c.subDict.entries), old(c.client.log))
    ensures fresh(set j | 0 <= j < |cells| :: cells[j])
  {
    cells := [];
    ghost var f0, e0, log0 := o.fields, c.subDict.entries, c.client.log;
    var k := 0;
    while k < |subs|
      invariant SubState(c, o, subs, k, cells, f0, e0, log0)
      invariant fresh(set j | 0 <= j < |cells| :: cells[j])
    {
      var name := VarName(subs[k]);
      if name.Raise? {
        err := Some(name.exc);
        return;
      }
      var t := SubscribeStep(c, o, subs, k, cells, f0, e0, log0);
      cells := cells + [t];
      k := k + 1;
    }
    err := None;
  }

  /** The publication loop's next step, in terms of the state before it. */
  lemma PubLoopNext(st: Published, subs: Option<seq<string>>, done: seq<string>, cells: seq<Topic>,
                    pub: string, x: Topic, mid: Published)
    requires |cells| == |done| && PubLoop(st, subs, done, cells) == Ok(mid)
    ensures PubLoop(st, subs, done + [pub], cells + [x]) == PubStep(mid, subs, pub, x)
  {
    var s, cs := done + [pub], cells + [x];
    assert s[..|done|] == done && cs[..|done|] == cells;
    assert s[|done|] == pub && cs[|done|] == x;
  }

  /** The heap agrees with the publication loop's state: a cell in the fields may publish exactly when it is in `publishable`. */
  ghost predicate PublishFlags(f: map<string, Attr>, publishable: set<Topic>)
    reads CellsOf(f)`canPublish
  {
    forall n | HoldsCell(f, n) :: f[n].t.canPublish <==> f[n].t in publishable
  }

  /** The new cells the publication loop made: one per publication that is not a subscription. */
  ghost predicate PublicationCells(cells: seq<Topic>, subs: Option<seq<string>>, pubs: seq<string>, client: Client)
    requires |cells| <= |pubs|
    reads cells`isSubscribed, cells`listedAt, cells`value, cells`onChangeCalls, cells`lastMessageTime,
          cells`lastPublishTime
  {
    forall j | 0 <= j < |cells| && subs.Some? && pubs[j] !in subs.value :: PublicationCell(cells[j], pubs[j], client)
  }

  /**
   * One pass of the publication loop of `wrapper` for `pub`: a publication
   * that is also a subscription sets `_can_publish` on the cell in its
   * field; any other gets a new publishing cell, stored through the
   * intercepted `setattr`. `cell` is the cell the pass used, and the
   * outcome is the one `PubStep` describes.
   */
  method PublishOne(c: Connect, o: Instance, subs: Option<seq<string>>, pub: string, ghost P: set<Topic>)
    returns (err: Option<Exception>, ghost cell: Topic?, ghost P': set<Topic>)
    requires PublishFlags(o.fields, P)
    modifies o`fields, CellsOf(o.fields)`canPublish
    ensures err.Some? ==> o.fields == old(o.fields) && PublishFlags(o.fields, P)
    ensures err.Some? ==> forall x: Topic :: PubStep(Published(old(o.fields), P), subs, pub, x) == Raise(err.value)
    ensures err.None? ==> cell != null
    ensures err.None? ==> PubStep(Published(old(o.fields), P), subs, pub, cell) == Ok(Published(o.fields, P'))
    ensures err.None? ==> PublishFlags(o.fields, P')
    ensures err.None? && subs.Some? && pub !in subs.value ==> fresh(cell) && cell.canPublish && PublicationCell(cell, pub, c.client)
    ensures err.None? && subs.Some? && pub in subs.value ==> cell in CellsOf(old(o.fields))
    ensures CellsOf(o.fields) <= CellsOf(old(o.fields)) + {cell}
    ensures err.None? ==> cell.canPublish
    ensures forall x | x in CellsOf(old(o.fields)) && x != cell :: x.canPublish == old(x.canPublish)
  {
    cell, P' := null, P;
    if subs.None? {
      return Some(TypeError), cell, P';
    }
    var name := VarName(pub);
    if name.Raise? {
      return Some(name.exc), cell, P';
    }
    if pub in subs.value {
      if name.value !in o.fields {
        return Some(KeyError), cell, P';
      }
      match o.fields[name.value]
      case Plain(_) =>
        return Some(AttributeError), cell, P';
      case Cell(t) =>
        t.canPublish := true;
        cell, P' := t, P + {t};
        err := None;
    } else {
      var t := new Topic(pub, c.client);
      t.canPublish := true;
      cell := t;
      err := Attach(o, name.value, t);
      if err.None? && o.fields != old(o.fields) {
        P' := P + {t};
      }
    }
  }

  /**
   * The object after the first `k` passes of the publication loop, started
   * on `st0`: its fields and publish permissions are the ones `PubLoop`
   * describes, and the new cells made so far are publication cells.
   */
  ghost predicate PubState(c: Connect, o: Instance, subs: Option<seq<string>>, pubs: seq<string>, k: nat,
                           cells: seq<Topic>, publishable: set<Topic>, st0: Published)
    reads o, CellsOf(o.fields)`canPublish, cells`isSubscribed, cells`listedAt, cells`value, cells`onChangeCalls,
          cells`lastMessageTime, cells`lastPublishTime
  {
    && k <= |pubs| && |cells| == k
    && PubLoop(st0, subs, pubs[..k], cells) == Ok(Published(o.fields, publishable))
    && PublishFlags(o.fields, publishable)
    && PublicationCells(cells, subs, pubs, c.client)
  }

  /** The cells made for publications that are not subscriptions lie outside `old`. */
  ghost predicate NewCellsOutside(cells: seq<Topic>, subs: Option<seq<string>>, pubs: seq<string>, old_: set<Topic>)
    requires |cells| <= |pubs|
  {
    forall j | 0 <= j < |cells| && subs.Some? && pubs[j] !in subs.value :: cells[j] !in old_
  }

  lemma NewCellsOutsideSnoc(cells: seq<Topic>, subs: Option<seq<string>>, pubs: seq<string>, old_: set<Topic>, t: Topic)
    requires |cells| < |pubs| && NewCellsOutside(cells, subs, pubs, old_)
    requires subs.Some? && pubs[|cells|] !in subs.value ==> t !in old_
    ensures NewCellsOutside(cells + [t], subs, pubs, old_)
  {
  }

  /** The publication cells grow by one cell per publication. */
  lemma PublicationCellsSnoc(cells: seq<Topic>, subs: Option<seq<string>>, pubs: seq<string>, client: Client, t: Topic)
    requires |cells| < |pubs| && PublicationCells(cells, subs, pubs, client)
    requires subs.Some? && pubs[|cells|] !in subs.value ==> PublicationCell(t, pubs[|cells|], client)
    ensures PublicationCells(cells + [t], subs, pubs, client)
  {
  }

  /** One pass of the publication loop, in terms of `PubLoop`. */
  method PublishStep(c: Connect, o: Instance, subs: Option<seq<string>>, pubs: seq<string>, k: nat,
                     ghost cells: seq<Topic>, ghost publishable: set<Topic>, ghost st0: Published,
                     ghost F0: set<Topic>)
    returns (err: Option<Exception>, ghost cell: Topic?, ghost P': set<Topic>)
    requires k < |pubs| && PubState(c, o, subs, pubs, k, cells, publishable, st0)
    modifies o`fields, CellsOf(o.fields)`canPublish
    ensures err.Some? ==> forall x: Topic :: PubLoop(st0, subs, pubs[..k + 1], cells + [x]) == Raise(err.value)
    ensures err.Some? ==> PubState(c, o, subs, pubs, k, cells, publishable, st0)
    ensures err.None? ==> cell != null && PubState(c, o, subs, pubs, k + 1, cells + [cell], P', st0)
    requires NewCellsOutside(cells, subs, pubs, F0)
    ensures err.None? ==> NewCellsOutside(cells + [cell], subs, pubs, F0)
    ensures err.None? ==> cell in CellsOf(old(o.fields)) || fresh(cell)
    ensures CellsOf(o.fields) <= CellsOf(old(o.fields)) + {cell}
  {
    ghost var mid := Published(o.fields, publishable);
    assert pubs[..k + 1] == pubs[..k] + [pubs[k]];
    err, cell, P' := PublishOne(c, o, subs, pubs[k], publishable);
    if err.Some? {
      forall x: Topic
        ensures PubLoop(st0, subs, pubs[..k + 1], cells + [x]) == Raise(err.value)
      {
        PubLoopNext(st0, subs, pubs[..k], cells, pubs[k], x, mid);
      }
    } else {
      assert subs.Some? && pubs[k] !in subs.value ==> cell !in F0;
      NewCellsOutsideSnoc(cells, subs, pubs, F0, cell);
      PublicationCellsSnoc(cells, subs, pubs, c.client, cell);
      PubLoopNext(st0, subs, pubs[..k], cells, pubs[k], cell, mid);
    }
  }

  /**
   * The publication loop of `wrapper`: each publication in turn, as
   * `PublishOne` does it, until the first exception. `cells[j]` is the cell
   * pass `j` used, and the fields and publish permissions are the ones
   * `PubLoop` describes; on an exception, the next pass is the one that
   * raised it, whatever cell it was given.
   */
  method AttachPublications(c: Connect, o: Instance, subs: Option<seq<string>>, pubs: seq<string>)
    returns (err: Option<Exception>, ghost cells: seq<Topic>, ghost publishable: set<Topic>)
    requires PublishFlags(o.fields, {})
    modifies o`fields, CellsOf(o.fields)`canPublish
    ensures PubState(c, o, subs, pubs, |cells|, cells, publishable, Published(old(o.fields), {}))
    ensures err.None? ==> |cells| == |pubs|
    ensures err.Some? ==>
              && |cells| < |pubs|
              && forall x: Topic :: PubLoop(Published(old(o.fields), {}), subs, pubs[..|cells| + 1], cells + [x]) == Raise(err.value)
    ensures NewCellsOutside(cells, subs, pubs, CellsOf(old(o.fields)))
  {
    ghost var st0 := Published(o.fields, {});
    ghost var F0 := CellsOf(o.fields);
    cells, publishable := [], {};
    var k := 0;
    while k < |pubs|
      invariant PubState(c, o, subs, pubs, k, cells, publishable, st0)
      invariant forall t | t in CellsOf(o.fields) :: t in F0 || fresh(t)
      invariant NewCellsOutside(cells, subs, pubs, F0)
    {
      var e, cell, P' := PublishStep(c, o, subs, pubs, k, cells, publishable, st0, F0);
      if e.Some? {
        return e, cells, publishable;
      }
      cells, publishable := cells + [cell], P';
      k := k + 1;
    }
    err := None;
  }

  /** After the subscription loop no cell in the fields may publish yet. */
  lemma SubscribedCellsCannotPublish(f: map<string, Attr>, cells: seq<Topic>, subs: seq<string>, client: Client,
                                     d: SubDict, base: nat)
    requires |cells| <= |subs| && SubscriptionCells(cells, subs, client, d, base)
    requires forall n | HoldsCell(f, n) :: f[n].t in cells
    ensures PublishFlags(f, {})
  {
    forall n | HoldsCell(f, n)
      ensures !f[n].t.canPublish
    {
      var j :| 0 <= j < |cells| && cells[j] == f[n].t;
    }
  }

  /**
   * The state after the subscription part of `wrapper`, from fields `f0`,
   * registry entries `e0` and client log `log0`: nothing happens without
   * subscriptions; otherwise the subscription loop ran over the topics up
   * to the first one without a field name.
   */
  ghost predicate SubPhase(c: Connect, f0: map<string, Attr>, e0: seq<(Topic, string)>, log0: seq<Call>,
                           f: map<string, Attr>, e: seq<(Topic, string)>, log: seq<Call>, subCells: seq<Topic>)
  {
    match c.subscriptions
    case None => subCells == [] && f == f0 && e == e0 && log == log0
    case Some(subs) =>
      && |subCells| == FirstBad(subs)
      && Bound(f, e) == SubLoop(f0, e0, subs[..|subCells|], subCells, c.client.reply, |log0|)
      && log == log0 + SubscribeCalls(subs[..|subCells|])
  }

  /** Whether the subscription part of `wrapper` stopped at a topic without a field name. */
  predicate SubFailed(c: Connect, subCells: seq<Topic>) {
    c.subscriptions.Some? && |subCells| < |c.subscriptions.value|
  }

  /**
   * The state after the publication part of `wrapper`, from the fields
   * `mid` the subscription part left: nothing happens without
   * publications; otherwise the publication loop ran, over all of them or
   * up to the one that raised `err` (which `Bind` states).
   */
  ghost predicate PubPhase(c: Connect, mid: map<string, Attr>, f: map<string, Attr>, publishable: set<Topic>,
                           pubCells: seq<Topic>, err: Option<Exception>)
  {
    match c.publications
    case None => f == mid && pubCells == [] && publishable == {} && err.None?
    case Some(pubs) =>
      && |pubCells| <= |pubs|
      && PubLoop(Published(mid, {}), c.subscriptions, pubs[..|pubCells|], pubCells) == Ok(Published(f, publishable))
      && (err.None? ==> |pubCells| == |pubs|)
      && (err.Some? ==> |pubCells| < |pubs|)
  }

  /** The subscription part of `wrapper`, run only when the object has subscriptions. */
  method BindSubscriptions(c: Connect, o: Instance) returns (err: Option<Exception>, ghost subCells: seq<Topic>)
    requires AllPlain(o.fields) && c.subDict.Valid()
    modifies o`fields, c.client`log, c.subDict`entries
    ensures c.subDict.Valid()
    ensures SubPhase(c, old(o.fields), old(c.subDict.entries), old(c.client.log),
                     o.fields, c.subDict.entries, c.client.log, subCells)
    ensures err == if SubFailed(c, subCells) then Some(AssertionError) else None
    ensures PublishFlags(o.fields, {})
    ensures forall t | t in CellsOf(o.fields) :: fresh(t)
  {
    subCells := [];
    err := None;
    if c.subscriptions.Some? {
      err, subCells := AttachSubscriptions(c, o, c.subscriptions.value);
      SubscribedCellsCannotPublish(o.fields, subCells, c.subscriptions.value, c.client, c.subDict,
                                   |old(c.client.log)|);
    }
  }

  /** The publication part of `wrapper`, run only when the object has publications. */
  method BindPublications(c: Connect, o: Instance)
    returns (err: Option<Exception>, ghost pubCells: seq<Topic>, ghost publishable: set<Topic>)
    requires PublishFlags(o.fields, {})
    modifies o`fields, CellsOf(o.fields)`canPublish
    ensures PubPhase(c, old(o.fields), o.fields, publishable, pubCells, err)
    ensures c.publications.Some? ==>
              && PublicationCells(pubCells, c.subscriptions, c.publications.value, c.client)
              && NewCellsOutside(pubCells, c.subscriptions, c.publications.value, CellsOf(old(o.fields)))
    ensures err.Some? ==>
              c.publications.Some? &&
              forall x: Topic :: PubLoop(Published(old(o.fields), {}), c.subscriptions, c.publications.value[..|pubCells| + 1],
                                         pubCells + [x]) == Raise(err.value)
    ensures PublishFlags(o.fields, publishable)
  {
    err, pubCells, publishable := None, [], {};
    if c.publications.Some? {
      err, pubCells, publishable := AttachPublications(c, o, c.subscriptions, c.publications.value);
    }
  }

  /**
   * `wrapper`, the function the decorator returns, applied to an object the
   * class's own constructor made: the subscription part, then, unless it
   * raised, the publication part, then `on_decorate` when the class defines
   * it and nothing was raised. `mid` is the field map between the two parts.
   */
  method Bind(c: Connect, o: Instance)
    returns (err: Option<Exception>, ghost mid: map<string, Attr>, ghost subCells: seq<Topic>,
             ghost pubCells: seq<Topic>, ghost publishable: set<Topic>)
    requires AllPlain(o.fields) && c.subDict.Valid()
    modifies o`fields, o`onDecorateCalls, c.client`log, c.subDict`entries
    ensures c.subDict.Valid()
    ensures SubPhase(c, old(o.fields), old(c.subDict.entries), old(c.client.log),
                     mid, c.subDict.entries, c.client.log, subCells)
    ensures SubFailed(c, subCells) ==> err == Some(AssertionError) && o.fields == mid && pubCells == []
    ensures !SubFailed(c, subCells) ==> PubPhase(c, mid, o.fields, publishable, pubCells, err)
    ensures !SubFailed(c, subCells) && c.publications.Some? ==>
              && PublicationCells(pubCells, c.subscriptions, c.publications.value, c.client)
              && NewCellsOutside(pubCells, c.subscriptions, c.publications.value, CellsOf(mid))
    ensures !SubFailed(c, subCells) && err.Some? ==>
              c.publications.Some? &&
              forall x: Topic :: PubLoop(Published(mid, {}), c.subscriptions, c.publications.value[..|pubCells| + 1],
                                         pubCells + [x]) == Raise(err.value)
    ensures PublishFlags(o.fields, publishable)
    ensures o.onDecorateCalls == old(o.onDecorateCalls) + if err.None? && o.hasOnDecorate then 1 else 0
  {
    pubCells, publishable := [], {};
    err, subCells := BindSubscriptions(c, o);
    mid := o.fields;
    if err.Some? {
      return;
    }
    err, pubCells, publishable := BindPublications(c, o);
    if err.None? && o.hasOnDecorate {
      o.onDecorateCalls := o.onDecorateCalls + 1;
    }
  }
}
