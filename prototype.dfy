/**
 * The earlier, single-file version of the binding core (`main.py`).
 *
 * Decorated objects get one `TopicHandler` per declared topic, stored in
 * the field named after the topic with `/` replaced by `_`. The registry
 * (`GLOBAL_SUBSCRIBERS`) is keyed by the decorated OBJECT and holds one
 * topic per object; the dispatcher looks the handler up again by the raw
 * topic. `GLOBAL_CLIENT` is passed to every operation that talks to the
 * broker.
 */
module Prototype {
  import opened Builtins
  import opened Dict
  import opened Transport

  /** The value a handler holds before anything is received or published. */
  const NOT_SET: string := "not set"

  // ---------------------------------------------------------------------
  // is_float and the comparison operators
  // ---------------------------------------------------------------------

  /** `is_float(v)`: whether `float(v)` succeeds. */
  predicate IsFloat(v: Value): (r: bool)
    ensures v.Int? ==> r
    ensures r && v.Text? ==> forall i | 0 <= i < |v.s| :: IsNumeralChar(v.s[i])
  {
    if v.Int? then true
    else if ParseFloat(v.s).Some? then ParsedTextIsNumeral(v.s); true
    else false
  }

  /** `float(v)`, for a value `is_float` accepts. */
  function FloatOf(v: Value): real
    requires IsFloat(v)
  {
    if v.Int? then v.i as real else ParseFloat(v.s).value
  }

  /** The six rich comparisons `__eq__`, `__ne__`, `__lt__`, `__le__`, `__gt__`, `__ge__`. */
  datatype CmpOp = Eq | Ne | Lt | Le | Gt | Ge

  function NumCmp(op: CmpOp, x: real, y: real): bool {
    match op
    case Eq => x == y
    case Ne => x != y
    case Lt => x < y
    case Le => x <= y
    case Gt => x > y
    case Ge => x >= y
  }

  /** Python's comparison of two `str`s: lexicographic, a proper prefix first. */
  function TextCmp(op: CmpOp, a: string, b: string): bool {
    match op
    case Eq => a == b
    case Ne => a != b
    case Lt => LexLess(a, b)
    case Le => LexLess(a, b) || a == b
    case Gt => LexLess(b, a)
    case Ge => LexLess(b, a) || a == b
  }

  /**
   * A float against `other`: numbers compare as numbers; against text,
   * `==` is false, `!=` is true and an ordering raises `TypeError`.
   */
  function FloatCmp(op: CmpOp, x: real, other: Value): (r: Result<bool>)
    ensures r.Raise? <==> other.Text? && op != Eq && op != Ne
    ensures r.Raise? ==> r.exc == TypeError
  {
    match other
    case Int(i) => Ok(NumCmp(op, x, i as real))
    case Text(_) =>
      if op == Eq then Ok(false)
      else if op == Ne then Ok(true)
      else Raise(TypeError)
  }

  /**
   * The comparison operators of `TopicHandler`, for a handler holding
   * `value`: a value `is_float` accepts is compared as a number with
   * `other`; any other value is text and is compared with `str(other)`.
   */
  function Compare(value: Value, op: CmpOp, other: Value): (r: Result<bool>)
    ensures r.Raise? ==> r.exc == TypeError && IsFloat(value) && other.Text?
    ensures op == Eq || op == Ne ==> r.Ok?
    ensures !IsFloat(value) ==> r.Ok?
  {
    if IsFloat(value) then FloatCmp(op, FloatOf(value), other)
    else Ok(TextCmp(op, value.s, ValueText(other)))
  }

  /** `__ne__` is the negation of `__eq__`, whatever the value and the other operand. */
  lemma CompareNeNegatesEq(value: Value, other: Value)
    ensures Compare(value, Ne, other).Ok? && Compare(value, Eq, other).Ok?
    ensures Compare(value, Ne, other).value == !Compare(value, Eq, other).value
  {
  }

  /**
   * For a value that is not a number, the operators are the order of
   * `str` against `str(other)`: exactly one of `<`, `==`, `>` holds, and
   * `<=`, `>=` are `<` or `==`, `>` or `==`.
   */
  lemma CompareTextIsTotalOrder(s: string, other: Value)
    requires !IsFloat(Text(s))
    ensures var lt, eq, gt := Compare(Text(s), Lt, other).value, Compare(Text(s), Eq, other).value,
                              Compare(Text(s), Gt, other).value;
            && (lt || eq || gt) && !(lt && eq) && !(lt && gt) && !(eq && gt)
            && Compare(Text(s), Le, other).value == (lt || eq)
            && Compare(Text(s), Ge, other).value == (gt || eq)
  {
    LexTrichotomy(s, ValueText(other));
  }

  /** A text value equals an integer exactly when it is that integer's decimal text, or parses to it. */
  lemma CompareEqInt(s: string, i: int)
    ensures Compare(Text(s), Eq, Int(i)) == Ok(if IsFloat(Text(s)) then ParseFloat(s).value == i as real else s == IntText(i))
  {
  }

  /** The integer's own text is equal to it: `"72" == 72` holds for a handler. */
  lemma CompareIntTextEqual(i: int)
    ensures Compare(Text(IntText(i)), Eq, Int(i)) == Ok(true)
  {
    IntTextParses(i);
  }

  /**
   * A handler that has received nothing compares as text: `"not set" > 72`
   * holds, because `"7"` comes before `"n"`.
   */
  lemma CompareNotSetAboveNumber()
    ensures Compare(Text(NOT_SET), Gt, Int(72)) == Ok(true)
  {
    NonNumeralTextDoesNotParse(NOT_SET, 0);
    assert IntText(72) == "72" by {
      assert NatText(72) == NatText(7) + [DigitChar(2)];
    }
    assert LexLess("72", NOT_SET);
  }

  /** A received number compares as a number: `"75.5" > 72` holds. */
  lemma CompareFractionAbove()
    ensures Compare(Text("75.5"), Gt, Int(72)) == Ok(true)
  {
    assert DigitsValue("75") == 75 by {
      assert "75"[..1] == "7";
    }
    assert ParseUnsigned("75.5") == Some(75.5) by {
      assert IndexOf("75.5", '.') == Some(2);
      assert "75.5"[..2] == "75" && "75.5"[3..] == "5";
    }
  }

  /** ... and `"60" > 72` does not. */
  lemma CompareWholeBelow()
    ensures Compare(Text("60"), Gt, Int(72)) == Ok(false)
  {
    assert DigitsValue("60") == 60 by {
      assert "60"[..1] == "6";
    }
    assert ParseFloat("60") == Some(60.0) by {
      assert IndexOf("60", '.') == None;
    }
  }

  /** A received number is unordered against text: `"60" < "x"` raises `TypeError`. */
  lemma CompareNumberAgainstText()
    ensures Compare(Text("60"), Lt, Text("x")) == Raise(TypeError)
  {
    assert ParseFloat("60").Some? by {
      assert IndexOf("60", '.') == None;
    }
  }

  /** Python's comparison of two plain `str`/`int` values: as for a float, `int` and `str` are unordered. */
  function PlainCmp(op: CmpOp, a: Value, b: Value): (r: Result<bool>)
    ensures r.Raise? <==> a.Int? != b.Int? && op != Eq && op != Ne
  {
    match a
    case Int(i) => FloatCmp(op, i as real, b)
    case Text(s) =>
      match b
      case Text(t) => Ok(TextCmp(op, s, t))
      case Int(_) => if op == Eq then Ok(false) else if op == Ne then Ok(true) else Raise(TypeError)
  }

  // ---------------------------------------------------------------------
  // The handler
  // ---------------------------------------------------------------------

  /** What `on_change` does: the default prints, `on_decorate` may install `hooray` of its object. */
  datatype Hook = PrintOnly | Hooray(owner: Instance)

  /** `TopicHandler`: the handler bound to one MQTT topic on one decorated object. */
  class TopicHandler {
    /** `_topic`. */
    const topic: string
    /** `_value`. */
    var value: Value
    /** `_can_publish` and `_is_subscribed`, set by the binder. */
    var canPublish: bool
    var isSubscribed: bool
    /** `last_message_time` and `last_publish_time`, in seconds. */
    var lastMessageTime: real
    var lastPublishTime: real
    /** `on_change`, which `on_decorate` may replace. */
    var onChange: Hook
    /** How many times `on_change` has run. */
    ghost var onChangeCalls: nat

    /** `TopicHandler(topic)`, with the class-level defaults. */
    constructor (topic: string)
      ensures this.topic == topic && value == Text(NOT_SET)
      ensures !canPublish && !isSubscribed
      ensures lastMessageTime == 0.0 && lastPublishTime == 0.0
      ensures onChange == PrintOnly && onChangeCalls == 0
    {
      this.topic := topic;
      value := Text(NOT_SET);
      canPublish := false;
      isSubscribed := false;
      lastMessageTime := 0.0;
      lastPublishTime := 0.0;
      onChange := PrintOnly;
      onChangeCalls := 0;
    }

    /**
     * `publish(payload, qos, retain)` through `GLOBAL_CLIENT`: without
     * permission it only warns and returns `None`; otherwise the message
     * goes out with the given quality of service and retain flag, and the
     * client's result code comes back.
     */
    method Publish(client: Client, payload: Value, qos: int, retain: bool) returns (rc: Option<int>)
      modifies client`log
      ensures !canPublish ==> rc == None && client.log == old(client.log)
      ensures canPublish ==> rc == Some(client.Reply(|old(client.log)|))
      ensures canPublish ==> client.log == old(client.log) + [Call.Publish(topic, payload, qos, retain)]
    {
      if !canPublish {
        rc := None;
      } else {
        var result := client.Publish(topic, payload, qos, retain);
        rc := Some(result);
      }
    }

    /**
     * The `value` setter: publish first with the default quality of service
     * 0 and no retain flag, and take the payload (stamping the publish time)
     * only when `publish` returned 0.
     */
    method SetValue(client: Client, payload: Value, now: real)
      modifies this`value, this`lastPublishTime, client`log
      ensures !canPublish ==> client.log == old(client.log)
      ensures canPublish ==> client.log == old(client.log) + [Call.Publish(topic, payload, 0, false)]
      ensures if canPublish && client.Reply(|old(client.log)|) == MQTT_ERR_SUCCESS
              then value == payload && lastPublishTime == now
              else value == old(value) && lastPublishTime == old(lastPublishTime)
    {
      var rc := Publish(client, payload, 0, false);
      if rc == Some(MQTT_ERR_SUCCESS) {
        value := payload;
        lastPublishTime := now;
      }
    }
  }

  // ---------------------------------------------------------------------
  // Decorated objects and the intercepted assignment
  // ---------------------------------------------------------------------

  /** An attribute of a decorated object: a handler or a plain value. */
  datatype Field = Handler(h: TopicHandler) | Plain(v: Value)

  predicate HoldsHandler(f: map<string, Field>, name: string) {
    name in f && f[name].Handler?
  }

  /** The handler at `name`, as a set: empty when the field is absent or plain. */
  function HandlerAt(f: map<string, Field>, name: string): (r: set<TopicHandler>)
    ensures r == {} || (HoldsHandler(f, name) && r == {f[name].h})
  {
    if HoldsHandler(f, name) then {f[name].h} else {}
  }

  /** Two field maps hold the same handlers under the same names (plain fields may differ). */
  ghost predicate SameHandlers(f0: map<string, Field>, f: map<string, Field>) {
    forall n :: (HoldsHandler(f0, n) <==> HoldsHandler(f, n)) && (HoldsHandler(f0, n) ==> f[n] == f0[n])
  }

  /** What the class defines as `on_decorate`: nothing, or `TemperatureWatcher`'s. */
  datatype OnDecorate = NoOnDecorate | WatchTemperature

  /** An instance of a decorated class: its `__dict__` and its class's `on_decorate`. */
  class Instance {
    var fields: map<string, Field>
    const onDecorate: OnDecorate

    /** The class's own constructor, which can only assign plain values: no handler exists yet. */
    constructor (init: map<string, Value>, onDecorate: OnDecorate)
      ensures fields.Keys == init.Keys
      ensures forall n | n in init :: fields[n] == Plain(init[n])
      ensures this.onDecorate == onDecorate
    {
      fields := map n | n in init :: Plain(init[n]);
      this.onDecorate := onDecorate;
    }
  }

  /**
   * `setattr_to_publish`: assigning to a field that holds a handler keeps
   * the handler and goes through its `value` setter; any other assignment
   * stores the plain value in that field alone.
   */
  method SetField(o: Instance, client: Client, name: string, v: Value, now: real)
    modifies o`fields, HandlerAt(o.fields, name)`value, HandlerAt(o.fields, name)`lastPublishTime, client`log
    ensures AssignedThrough(o, old(o.fields), client, name, v, now)
    ensures SameHandlers(old(o.fields), o.fields)
  {
    if name in o.fields && o.fields[name].Handler? {
      var h := o.fields[name].h;
      h.SetValue(client, v, now);
    } else {
      o.fields := o.fields[name := Plain(v)];
    }
  }

  // ---------------------------------------------------------------------
  // The registry
  // ---------------------------------------------------------------------

  /** `GLOBAL_SUBSCRIBERS`: pairs of (object, topic) in insertion order, one pair per object. */
  class Subscribers {
    var entries: seq<(Instance, string)>

    ghost predicate Valid()
      reads this
    {
      DistinctKeys(entries)
    }

    constructor ()
      ensures entries == [] && Valid()
    {
      entries := [];
    }
  }

  /**
   * `note_subscribers(topic, subscriber)`: when the object has a field
   * named exactly `topic`, `GLOBAL_SUBSCRIBERS[subscriber] = topic` (an
   * object already present gets its topic replaced); otherwise it only
   * warns.
   */
  method NoteSubscribers(topic: string, subscriber: Instance, reg: Subscribers)
    requires reg.Valid()
    modifies reg`entries
    ensures topic in subscriber.fields ==> reg.entries == Assign(old(reg.entries), subscriber, topic)
    ensures topic !in subscriber.fields ==> reg.entries == old(reg.entries)
    ensures reg.Valid()
    ensures Lookup(reg.entries, subscriber) ==
            if topic in subscriber.fields then Some(topic) else Lookup(old(reg.entries), subscriber)
    ensures forall other: Instance | other != subscriber ::
              Lookup(reg.entries, other) == Lookup(old(reg.entries), other)
  {
    if topic in subscriber.fields {
      forall other: Instance
        ensures Lookup(Assign(reg.entries, subscriber, topic), other) ==
                if other == subscriber then Some(topic) else Lookup(reg.entries, other)
      {
        AssignLookup(reg.entries, subscriber, topic, other);
      }
      reg.entries := Assign(reg.entries, subscriber, topic);
    }
  }

  // ---------------------------------------------------------------------
  // TemperatureWatcher
  // ---------------------------------------------------------------------

  /** `TemperatureWatcher(hold_temp)`: its constructor stores `hold_temp` as a plain field. */
  method NewTemperatureWatcher(holdTemp: Value) returns (o: Instance)
    ensures fresh(o) && o.fields == map["hold_temp" := Plain(holdTemp)] && o.onDecorate == WatchTemperature
  {
    o := new Instance(map["hold_temp" := holdTemp], WatchTemperature);
  }

  /**
   * What `hooray` does before it assigns, in Python's order of evaluation:
   * the message it prints formats `TEMPERATURE` (missing: `AttributeError`;
   * a handler whose `__str__` returns a number: `TypeError`), then
   * `TEMPERATURE > hold_temp` reads `hold_temp` (missing: `AttributeError`)
   * and compares, a handler by its operators and two plain values as Python
   * does. The result is the command it assigns. A `hold_temp` field holding
   * a handler is outside the model and reads as `TypeError`.
   */
  function HoorayCommand(f: map<string, Field>): (r: Result<string>)
    reads HandlerAt(f, "TEMPERATURE")
    ensures r.Ok? ==> r.value == "ON" || r.value == "OFF"
    ensures r.Raise? ==> r.exc == AttributeError || r.exc == TypeError
    ensures "TEMPERATURE" !in f ==> r == Raise(AttributeError)
    ensures r == Raise(AttributeError) ==> "TEMPERATURE" !in f || "hold_temp" !in f
    ensures HoldsHandler(f, "TEMPERATURE") && f["TEMPERATURE"].h.value.Int? ==> r == Raise(TypeError)
    ensures HoldsHandler(f, "TEMPERATURE") && "hold_temp" in f && f["hold_temp"].Plain? &&
            !IsFloat(f["TEMPERATURE"].h.value) ==>
              r == Ok(if LexLess(ValueText(f["hold_temp"].v), f["TEMPERATURE"].h.value.s) then "ON" else "OFF")
  {
    if "TEMPERATURE" !in f then Raise(AttributeError)
    else if f["TEMPERATURE"].Handler? && f["TEMPERATURE"].h.value.Int? then Raise(TypeError)
    else if "hold_temp" !in f then Raise(AttributeError)
    else match f["hold_temp"]
      case Handler(_) => Raise(TypeError)
      case Plain(v) =>
        var above := match f["TEMPERATURE"]
          case Handler(h) => Compare(h.value, Gt, v)
          case Plain(x) => PlainCmp(Gt, x, v);
        if above.Raise? then Raise(above.exc) else Ok(if above.value then "ON" else "OFF")
  }

  /**
   * `TemperatureWatcher.hooray`: `"ON"` is assigned to `AIR_COND_SOUTH`
   * when `TEMPERATURE` is above `hold_temp`, `"OFF"` otherwise, through
   * the intercepted assignment (so it is published when that field holds a
   * publishing handler). Every exception `HoorayCommand` names is raised
   * before any assignment.
   */
  method RunHooray(o: Instance, client: Client, now: real) returns (err: Option<Exception>)
    modifies o`fields, HandlerAt(o.fields, "AIR_COND_SOUTH")`value,
             HandlerAt(o.fields, "AIR_COND_SOUTH")`lastPublishTime, client`log
    ensures HoorayEffect(o, old(o.fields), client, now, err)
    ensures SameHandlers(old(o.fields), o.fields)
  {
    var cmd := HoorayCommand(o.fields);
    if cmd.Raise? {
      return Some(cmd.exc);
    }
    SetField(o, client, "AIR_COND_SOUTH", Text(cmd.value), now);
    err := None;
  }

  /** The effect of `o.name = v` through `setattr_to_publish` on an object whose fields were `f0`, as `SetField` states it. */
  twostate predicate AssignedThrough(o: Instance, f0: map<string, Field>, client: Client, name: string, v: Value, now: real)
    reads o, HandlerAt(f0, name), client
  {
    && (!HoldsHandler(f0, name) ==>
          o.fields == f0[name := Plain(v)] && client.log == old(client.log))
    && (HoldsHandler(f0, name) ==>
          && o.fields == f0
          && var h := f0[name].h;
             && (h.canPublish ==> client.log == old(client.log) + [Call.Publish(h.topic, v, 0, false)])
             && (!h.canPublish ==> client.log == old(client.log))
             && if h.canPublish && client.Reply(|old(client.log)|) == MQTT_ERR_SUCCESS
                then h.value == v && h.lastPublishTime == now
                else h.value == old(h.value) && h.lastPublishTime == old(h.lastPublishTime))
  }

  /**
   * The effect of `hooray` on an object whose fields were `f0`: an
   * exception from `HoorayCommand` leaves everything as it was; otherwise
   * the chosen command is assigned to `AIR_COND_SOUTH`.
   */
  twostate predicate HoorayEffect(o: Instance, f0: map<string, Field>, client: Client, now: real, new err: Option<Exception>)
    reads o, HandlerAt(f0, "AIR_COND_SOUTH"), client
  {
    var cmd := old(HoorayCommand(f0));
    && (cmd.Raise? ==> err == Some(cmd.exc) && o.fields == f0 && client.log == old(client.log))
    && (cmd.Ok? ==> err.None? && AssignedThrough(o, f0, client, "AIR_COND_SOUTH", Text(cmd.value), now))
  }

  // ---------------------------------------------------------------------
  // The dispatcher
  // ---------------------------------------------------------------------

  /** The object whose `hooray` a handler's `on_change` runs, if any. */
  function HookOwner(h: TopicHandler): set<Instance>
    reads h`onChange
  {
    if h.onChange.Hooray? then {h.onChange.owner} else {}
  }

  /** The handler a handler's `on_change` may publish through: the hook owner's `AIR_COND_SOUTH`. */
  function HookTarget(h: TopicHandler): set<TopicHandler>
    reads h`onChange, HookOwner(h)`fields
  {
    if h.onChange.Hooray? then HandlerAt(h.onChange.owner.fields, "AIR_COND_SOUTH") else {}
  }

  /**
   * `called_from_on_message`: run `on_change`, then stamp the message
   * time. An exception from the hook propagates and the time is not
   * stamped. The default hook only prints; `hooray` acts as `RunHooray`.
   */
  method CalledFromOnMessage(h: TopicHandler, client: Client, now: real) returns (err: Option<Exception>)
    modifies h`onChangeCalls, h`lastMessageTime, HookOwner(h)`fields,
             HookTarget(h)`value, HookTarget(h)`lastPublishTime, client`log
    ensures h.onChangeCalls == old(h.onChangeCalls) + 1
    ensures err.None? ==> h.lastMessageTime == now
    ensures err.Some? ==> h.lastMessageTime == old(h.lastMessageTime)
    ensures h.onChange.PrintOnly? ==> err.None? && client.log == old(client.log)
    ensures h.onChange.Hooray? ==>
              var owner := h.onChange.owner;
              HoorayEffect(owner, old(owner.fields), client, now, err) && SameHandlers(old(owner.fields), owner.fields)
  {
    h.onChangeCalls := h.onChangeCalls + 1;
    match h.onChange {
      case PrintOnly =>
        err := None;
      case Hooray(owner) =>
        err := RunHooray(owner, client, now);
    }
    if err.None? {
      h.lastMessageTime := now;
    }
  }

  /** The `__dict__` of each object in `objs`, taken at one moment. */
  ghost function Snapshot(objs: set<Instance>): (r: map<Instance, map<string, Field>>)
    reads objs`fields
    ensures r.Keys == objs
  {
    map o | o in objs :: o.fields
  }

  /** Every handler held in a field of a snapshot. */
  ghost function HandlersOf(snap: map<Instance, map<string, Field>>): (r: set<TopicHandler>)
    ensures Holds(snap, r)
  {
    set o, n | o in snap && n in snap[o] && snap[o][n].Handler? :: snap[o][n].h
  }

  /** `hs` contains every handler held in a field of the snapshot. */
  ghost predicate Holds(snap: map<Instance, map<string, Field>>, hs: set<TopicHandler>) {
    forall o, n | o in snap && HoldsHandler(snap[o], n) :: snap[o][n].h in hs
  }

  /** The objects whose `hooray` one of the handlers `hs` runs. */
  ghost function HookOwners(hs: set<TopicHandler>): set<Instance>
    reads hs`onChange
  {
    set h | h in hs && h.onChange.Hooray? :: h.onChange.owner
  }

  /**
   * What `on_message` can reach from the registry: the registered objects
   * and the objects whose `hooray` their handlers run.
   */
  ghost function Reach(e: seq<(Instance, string)>): (r: set<Instance>)
    reads Keys(e)`fields, HandlersOf(Snapshot(Keys(e)))`onChange
    ensures Keys(e) <= r
  {
    Keys(e) + HookOwners(HandlersOf(Snapshot(Keys(e))))
  }

  /** Whether registry entry `x` is for `topic` and its object holds a handler under that name in `snap`. */
  ghost predicate HitsHandler(snap: map<Instance, map<string, Field>>, x: (Instance, string), topic: string, h: TopicHandler) {
    x.1 == topic && x.0 in snap && HoldsHandler(snap[x.0], topic) && snap[x.0][topic].h == h
  }

  /** How many entries of `e` deliver a message on `topic` to the handler `h`. */
  ghost function Hits(e: seq<(Instance, string)>, snap: map<Instance, map<string, Field>>, topic: string, h: TopicHandler): nat {
    if |e| == 0 then 0
    else Hits(e[..|e| - 1], snap, topic, h) + if HitsHandler(snap, e[|e| - 1], topic, h) then 1 else 0
  }

  /**
   * The error `on_message` meets at an entry for the message topic before
   * running any hook: `KeyError` when the object has no field named like
   * the topic, `AttributeError` when that field is a plain value.
   */
  function EntryFault(f: map<string, Field>, topic: string): (r: Option<Exception>)
    ensures r.None? <==> HoldsHandler(f, topic)
  {
    if topic !in f then Some(KeyError)
    else if f[topic].Plain? then Some(AttributeError)
    else None
  }

  /** The first entry of `e` for `topic` whose object in `snap` does not hold a handler there, or `|e|`. */
  ghost function FirstFault(e: seq<(Instance, string)>, snap: map<Instance, map<string, Field>>, topic: string): (k: nat)
    requires Keys(e) <= snap.Keys
    ensures k <= |e|
    ensures forall j | 0 <= j < k && e[j].1 == topic :: HoldsHandler(snap[e[j].0], topic)
    ensures k < |e| ==> e[k].1 == topic && !HoldsHandler(snap[e[k].0], topic)
  {
    if |e| == 0 then 0
    else if e[0].1 == topic && !HoldsHandler(snap[e[0].0], topic) then 0
    else 1 + FirstFault(e[1..], snap, topic)
  }

  /** Every handler `e` delivers `topic` to runs the default, printing `on_change`. */
  ghost predicate Quiet(e: seq<(Instance, string)>, snap: map<Instance, map<string, Field>>, topic: string,
                        hs: set<TopicHandler>)
    requires Keys(e) <= snap.Keys && Holds(snap, hs)
    reads hs`onChange
  {
    forall j | 0 <= j < |e| && e[j].1 == topic && HoldsHandler(snap[e[j].0], topic) ::
      snap[e[j].0][topic].h.onChange == PrintOnly
  }

  /** What the dispatcher reads and writes of a handler. */
  datatype HandlerState = HandlerState(value: Value, lastMessageTime: real, lastPublishTime: real, onChangeCalls: nat)

  ghost function StateOf(h: TopicHandler): HandlerState
    reads h`value, h`lastMessageTime, h`lastPublishTime, h`onChangeCalls
  {
    HandlerState(h.value, h.lastMessageTime, h.lastPublishTime, h.onChangeCalls)
  }

  ghost function States(hs: set<TopicHandler>): (r: map<TopicHandler, HandlerState>)
    reads hs`value, hs`lastMessageTime, hs`lastPublishTime, hs`onChangeCalls
    ensures r.Keys == hs
  {
    map h | h in hs :: StateOf(h)
  }

  /**
   * A handler state after `n` deliveries of `payload` at time `now`: the
   * payload as its value, the message time and `n` more hook runs; the
   * state is unchanged when `n` is 0.
   */
  function AfterHits(s: HandlerState, n: nat, payload: string, now: real): (r: HandlerState)
    ensures n == 0 ==> r == s
    ensures n > 0 ==> r.value == Text(payload) && r.lastMessageTime == now && r.onChangeCalls == s.onChangeCalls + n
    ensures r.lastPublishTime == s.lastPublishTime
  {
    if n == 0 then s
    else s.(value := Text(payload), lastMessageTime := now, onChangeCalls := s.onChangeCalls + n)
  }

  /** A handler held in a field of a snapshot is one of its handlers. */
  lemma HandlerInSnapshot(snap: map<Instance, map<string, Field>>, o: Instance, n: string)
    requires o in snap && HoldsHandler(snap[o], n)
    ensures snap[o][n].h in HandlersOf(snap)
  {
  }

  /** Extending the walked prefix by one entry adds one hit exactly to that entry's handler. */
  lemma HitsSnoc(e: seq<(Instance, string)>, snap: map<Instance, map<string, Field>>, topic: string, h: TopicHandler, i: nat)
    requires i < |e|
    ensures Hits(e[..i + 1], snap, topic, h) == Hits(e[..i], snap, topic, h) + if HitsHandler(snap, e[i], topic, h) then 1 else 0
  {
    assert e[..i + 1][..i] == e[..i];
  }

  /**
   * The registry entries `e` against the snapshot `snap` of the reachable
   * objects: every registered object is in it, and every entry among the
   * first `i` for `topic` held a handler.
   */
  ghost predicate Covers(e: seq<(Instance, string)>, snap: map<Instance, map<string, Field>>, topic: string, i: nat) {
    && i <= |e| && Keys(e) <= snap.Keys
    && forall j | 0 <= j < i && e[j].1 == topic :: HoldsHandler(snap[e[j].0], topic)
  }

  /** Every hook the entries for `topic` may run belongs to an object of the snapshot. */
  ghost predicate HooksInside(e: seq<(Instance, string)>, snap: map<Instance, map<string, Field>>, topic: string,
                              hs: set<TopicHandler>)
    requires Keys(e) <= snap.Keys && Holds(snap, hs)
    reads hs`onChange
  {
    forall j | 0 <= j < |e| && e[j].1 == topic && HoldsHandler(snap[e[j].0], topic) ::
      HookOwner(snap[e[j].0][topic].h) <= snap.Keys
  }

  /** No object of the snapshot gained or lost a handler. */
  ghost predicate KeepsHandlers(snap: map<Instance, map<string, Field>>)
    reads snap.Keys`fields
  {
    forall o | o in snap :: SameHandlers(snap[o], o.fields)
  }

  /**
   * A walk over the first `i` entries that ran only default hooks: no
   * field and no log entry changed, and every handler's state is its
   * state `st0` at the start after the deliveries so far.
   */
  ghost predicate QuietSoFar(e: seq<(Instance, string)>, snap: map<Instance, map<string, Field>>, topic: string,
                             hs: set<TopicHandler>, payload: string, now: real, client: Client, log0: seq<Call>,
                             st0: map<TopicHandler, HandlerState>, i: nat)
    requires Covers(e, snap, topic, i) && Holds(snap, hs) && st0.Keys == hs
    reads snap.Keys`fields, hs`value, hs`lastMessageTime, hs`lastPublishTime, hs`onChangeCalls, hs`onChange, client`log
  {
    && Quiet(e, snap, topic, hs) && i <= FirstFault(e, snap, topic)
    && (forall o | o in snap :: o.fields == snap[o])
    && client.log == log0
    && forall h | h in hs :: StateOf(h) == AfterHits(st0[h], Hits(e[..i], snap, topic, h), payload, now)
  }

  /**
   * The dispatcher's state after walking the first `i` registry entries
   * `e`, against the snapshot `snap` of the reachable objects and their
   * handlers `hs` taken at the start (with the client log `log0` and the
   * handler states `st0`); the quiet part holds when the walk runs only
   * default hooks.
   */
  ghost predicate Dispatching(e: seq<(Instance, string)>, snap: map<Instance, map<string, Field>>, topic: string,
                              hs: set<TopicHandler>, payload: string, now: real, client: Client, log0: seq<Call>,
                              st0: map<TopicHandler, HandlerState>, i: nat, quiet: bool)
    reads snap.Keys`fields, hs`value, hs`lastMessageTime, hs`lastPublishTime, hs`onChangeCalls, hs`onChange, client`log
  {
    && Covers(e, snap, topic, i) && Holds(snap, hs) && st0.Keys == hs
    && HooksInside(e, snap, topic, hs)
    && KeepsHandlers(snap)
    && (quiet ==> QuietSoFar(e, snap, topic, hs, payload, now, client, log0, st0, i))
  }

  /**
   * One delivery to a handler: the payload becomes its value, then
   * `called_from_on_message` runs, and an `AttributeError` from it is
   * caught, as `on_message` does. With the default hook this is exactly
   * one delivery; `hooray` may fail only with `TypeError` and never adds
   * or removes a handler of its object.
   */
  method DeliverTo(h: TopicHandler, payload: string, client: Client, now: real) returns (err: Option<Exception>)
    modifies h`value, h`onChangeCalls, h`lastMessageTime, HookOwner(h)`fields,
             HookTarget(h)`value, HookTarget(h)`lastPublishTime, client`log
    ensures err.None? || err == Some(TypeError)
    ensures h.onChange.PrintOnly? ==>
              err.None? && client.log == old(client.log) && StateOf(h) == AfterHits(old(StateOf(h)), 1, payload, now)
    ensures h.onChange.Hooray? ==> SameHandlers(old(h.onChange.owner.fields), h.onChange.owner.fields)
  {
    h.value := Text(payload);
    var r := CalledFromOnMessage(h, client, now);
    if r == Some(AttributeError) {
      err := None;
    } else {
      err := r;
    }
  }

  /** An entry for another topic leaves the walk's state as it was, one entry further on. */
  lemma SkipEntry(e: seq<(Instance, string)>, i: nat, msgTopic: string, hs: set<TopicHandler>, payload: string,
                  client: Client, now: real, snap: map<Instance, map<string, Field>>, log0: seq<Call>,
                  st0: map<TopicHandler, HandlerState>, quiet: bool)
    requires i < |e| && e[i].1 != msgTopic && Dispatching(e, snap, msgTopic, hs, payload, now, client, log0, st0, i, quiet)
    ensures Dispatching(e, snap, msgTopic, hs, payload, now, client, log0, st0, i + 1, quiet)
  {
    forall h | h in hs
      ensures Hits(e[..i + 1], snap, msgTopic, h) == Hits(e[..i], snap, msgTopic, h)
    {
      HitsSnoc(e, snap, msgTopic, h, i);
    }
  }

  /** The `on_message` loop at an entry for the message topic whose handler runs the default hook. */
  method DeliverQuietly(e: seq<(Instance, string)>, i: nat, msgTopic: string, ghost hs: set<TopicHandler>, payload: string,
                        client: Client, now: real, ghost snap: map<Instance, map<string, Field>>, ghost log0: seq<Call>,
                        ghost st0: map<TopicHandler, HandlerState>, ghost quiet: bool)
    returns (err: Option<Exception>)
    requires i < |e| && e[i].1 == msgTopic && HoldsHandler(e[i].0.fields, msgTopic)
    requires e[i].0.fields[msgTopic].h.onChange.PrintOnly?
    requires Dispatching(e, snap, msgTopic, hs, payload, now, client, log0, st0, i, quiet)
    modifies snap.Keys`fields, hs`value, hs`lastMessageTime, hs`lastPublishTime, hs`onChangeCalls, client`log
    ensures err.None? && Dispatching(e, snap, msgTopic, hs, payload, now, client, log0, st0, i + 1, quiet)
  {
    var h := e[i].0.fields[msgTopic].h;
    assert h == snap[e[i].0][msgTopic].h;
    err := DeliverTo(h, payload, client, now);
    forall h' | h' in hs
      ensures quiet ==> StateOf(h') == AfterHits(st0[h'], Hits(e[..i + 1], snap, msgTopic, h'), payload, now)
    {
      HitsSnoc(e, snap, msgTopic, h', i);
      if quiet && h' != h {
        assert StateOf(h') == old(StateOf(h'));
      }
    }
  }

  /**
   * The `on_message` loop at an entry for the message topic whose handler
   * runs `hooray`: such a walk is not quiet, and the hook keeps every
   * object's handlers.
   */
  method DeliverWithHook(e: seq<(Instance, string)>, i: nat, msgTopic: string, ghost hs: set<TopicHandler>, payload: string,
                         client: Client, now: real, ghost snap: map<Instance, map<string, Field>>, ghost log0: seq<Call>,
                         ghost st0: map<TopicHandler, HandlerState>, ghost quiet: bool)
    returns (err: Option<Exception>)
    requires i < |e| && e[i].1 == msgTopic && HoldsHandler(e[i].0.fields, msgTopic)
    requires e[i].0.fields[msgTopic].h.onChange.Hooray?
    requires Dispatching(e, snap, msgTopic, hs, payload, now, client, log0, st0, i, quiet)
    modifies snap.Keys`fields, hs`value, hs`lastMessageTime, hs`lastPublishTime, hs`onChangeCalls, client`log
    ensures !quiet
    ensures err.None? || err == Some(TypeError)
    ensures Dispatching(e, snap, msgTopic, hs, payload, now, client, log0, st0, if err.None? then i + 1 else i, quiet)
  {
    var h := e[i].0.fields[msgTopic].h;
    ghost var owner := h.onChange.owner;
    assert h == snap[e[i].0][msgTopic].h;
    assert owner in snap;
    err := DeliverTo(h, payload, client, now);
    forall o | o in snap
      ensures SameHandlers(snap[o], o.fields)
    {
      if o != owner {
        assert o.fields == old(o.fields);
      }
    }
  }

  /** One turn of the `on_message` loop, at registry entry `i`. */
  method DeliverStep(e: seq<(Instance, string)>, i: nat, msgTopic: string, ghost hs: set<TopicHandler>, payload: string,
                     client: Client, now: real, ghost snap: map<Instance, map<string, Field>>, ghost log0: seq<Call>,
                     ghost st0: map<TopicHandler, HandlerState>, ghost quiet: bool)
    returns (err: Option<Exception>)
    requires i < |e| && Dispatching(e, snap, msgTopic, hs, payload, now, client, log0, st0, i, quiet)
    modifies snap.Keys`fields, hs`value, hs`lastMessageTime, hs`lastPublishTime, hs`onChangeCalls, client`log
    ensures err.None? ==> Dispatching(e, snap, msgTopic, hs, payload, now, client, log0, st0, i + 1, quiet)
    ensures err.Some? ==> err.value in {KeyError, AttributeError, TypeError}
    ensures err.Some? ==> Dispatching(e, snap, msgTopic, hs, payload, now, client, log0, st0, i, quiet)
    ensures err.Some? && quiet ==> e[i].1 == msgTopic && err == EntryFault(snap[e[i].0], msgTopic)
  {
    var (o, topic) := e[i];
    if topic != msgTopic {
      SkipEntry(e, i, msgTopic, hs, payload, client, now, snap, log0, st0, quiet);
      return None;
    }
    if topic !in o.fields {
      return Some(KeyError);
    }
    if o.fields[topic].Plain? {
      return Some(AttributeError);
    }
    if o.fields[topic].h.onChange.PrintOnly? {
      err := DeliverQuietly(e, i, msgTopic, hs, payload, client, now, snap, log0, st0, quiet);
    } else {
      err := DeliverWithHook(e, i, msgTopic, hs, payload, client, now, snap, log0, st0, quiet);
    }
  }

  /**
   * The `on_message` loop: it walks the entries until one raises, and
   * stops at entry `k`, which is the end of the registry when nothing
   * raised.
   */
  method Walk(e: seq<(Instance, string)>, msgTopic: string, ghost hs: set<TopicHandler>, payload: string,
              client: Client, now: real, ghost snap: map<Instance, map<string, Field>>, ghost log0: seq<Call>,
              ghost st0: map<TopicHandler, HandlerState>, ghost quiet: bool)
    returns (err: Option<Exception>, ghost k: nat)
    requires Dispatching(e, snap, msgTopic, hs, payload, now, client, log0, st0, 0, quiet)
    modifies snap.Keys`fields, hs`value, hs`lastMessageTime, hs`lastPublishTime, hs`onChangeCalls, client`log
    ensures k <= |e| && Dispatching(e, snap, msgTopic, hs, payload, now, client, log0, st0, k, quiet)
    ensures err.None? ==> k == |e|
    ensures err.Some? ==> k < |e| && err.value in {KeyError, AttributeError, TypeError}
    ensures err.Some? && quiet ==> e[k].1 == msgTopic && err == EntryFault(snap[e[k].0], msgTopic)
  {
    var i := 0;
    while i < |e|
      invariant Dispatching(e, snap, msgTopic, hs, payload, now, client, log0, st0, i, quiet)
    {
      err := DeliverStep(e, i, msgTopic, hs, payload, client, now, snap, log0, st0, quiet);
      if err.Some? {
        return err, i;
      }
      i := i + 1;
    }
    return None, i;
  }

  /**
   * Where the walk stopped, read off its state: every entry for the topic
   * held a handler when nothing raised, and a quiet walk stopped exactly
   * at the first entry without one, having delivered to every entry
   * before it.
   */
  lemma WalkOutcome(e: seq<(Instance, string)>, snap: map<Instance, map<string, Field>>, topic: string,
                    hs: set<TopicHandler>, payload: string, now: real, client: Client, log0: seq<Call>,
                    st0: map<TopicHandler, HandlerState>, k: nat, quiet: bool, err: Option<Exception>)
    requires k <= |e| && Dispatching(e, snap, topic, hs, payload, now, client, log0, st0, k, quiet)
    requires err.None? ==> k == |e|
    requires err.Some? ==> k < |e|
    requires err.Some? && quiet ==> e[k].1 == topic && err == EntryFault(snap[e[k].0], topic)
    ensures err.None? ==> forall j | 0 <= j < |e| && e[j].1 == topic :: HoldsHandler(e[j].0.fields, topic)
    ensures quiet ==>
              var k' := FirstFault(e, snap, topic);
              && k == k'
              && err == (if k' == |e| then None else EntryFault(snap[e[k'].0], topic))
              && (forall o | o in snap :: o.fields == snap[o])
              && client.log == log0
              && forall h | h in hs :: StateOf(h) == AfterHits(st0[h], Hits(e[..k'], snap, topic, h), payload, now)
  {
    if err.None? {
      assert e[..k] == e;
      forall j | 0 <= j < |e| && e[j].1 == topic
        ensures HoldsHandler(e[j].0.fields, topic)
      {
        assert SameHandlers(snap[e[j].0], e[j].0.fields);
      }
    }
  }

  /** Before the walk, the state is the snapshot itself with nothing delivered. */
  lemma DispatchStart(e: seq<(Instance, string)>, snap: map<Instance, map<string, Field>>, topic: string,
                      hs: set<TopicHandler>, payload: string, now: real, client: Client,
                      st0: map<TopicHandler, HandlerState>, quiet: bool)
    requires snap == Snapshot(Reach(e)) && hs == HandlersOf(snap) && st0 == States(hs)
    requires quiet ==> Quiet(e, snap, topic, hs)
    ensures Dispatching(e, snap, topic, hs, payload, now, client, client.log, st0, 0, quiet)
  {
    forall j | 0 <= j < |e| && e[j].1 == topic && HoldsHandler(snap[e[j].0], topic)
      ensures HookOwner(snap[e[j].0][topic].h) <= snap.Keys
    {
      HandlerInSnapshot(Snapshot(Keys(e)), e[j].0, topic);
    }
  }

  /**
   * `on_message`: every registry entry whose topic equals the message
   * topic gets the payload as its handler's value and then
   * `called_from_on_message`. A missing field raises `KeyError` and a plain
   * one `AttributeError`, ending the walk; an `AttributeError` from the
   * hook is caught and the walk goes on; any other exception ends it. The
   * walk never adds or removes a handler. When every handler it reaches
   * runs the default hook, the outcome is exact: the walk stops at the
   * first entry without a handler, each handler holds the payload and ran
   * `on_change` once per entry that reached it, and nothing else changes.
   */
  method OnMessage(reg: Subscribers, client: Client, msgTopic: string, payload: string, now: real)
    returns (err: Option<Exception>)
    modifies Reach(reg.entries)`fields, HandlersOf(Snapshot(Reach(reg.entries)))`value,
             HandlersOf(Snapshot(Reach(reg.entries)))`lastMessageTime,
             HandlersOf(Snapshot(Reach(reg.entries)))`lastPublishTime,
             HandlersOf(Snapshot(Reach(reg.entries)))`onChangeCalls, client`log
    ensures forall o | o in old(Reach(reg.entries)) :: SameHandlers(old(o.fields), o.fields)
    ensures err.None? ==>
              forall j | 0 <= j < |reg.entries| && reg.entries[j].1 == msgTopic ::
                HoldsHandler(reg.entries[j].0.fields, msgTopic)
    ensures err.Some? ==> err.value in {KeyError, AttributeError, TypeError}
    ensures var snap := old(Snapshot(Reach(reg.entries)));
            var hs := HandlersOf(snap);
            old(Quiet(reg.entries, snap, msgTopic, hs)) ==>
              var k := FirstFault(reg.entries, snap, msgTopic);
              && err == (if k == |reg.entries| then None else EntryFault(snap[reg.entries[k].0], msgTopic))
              && (forall o | o in snap :: o.fields == snap[o])
              && client.log == old(client.log)
              && forall h | h in hs ::
                   StateOf(h) == AfterHits(old(StateOf(h)), Hits(reg.entries[..k], snap, msgTopic, h), payload, now)
  {
    var e := reg.entries;
    ghost var snap := Snapshot(Reach(e));
    ghost var hs := HandlersOf(snap);
    ghost var st0 := States(hs);
    ghost var quiet := Quiet(e, snap, msgTopic, hs);
    DispatchStart(e, snap, msgTopic, hs, payload, now, client, st0, quiet);
    ghost var k;
    err, k := Walk(e, msgTopic, hs, payload, client, now, snap, old(client.log), st0, quiet);
    WalkOutcome(e, snap, msgTopic, hs, payload, now, client, old(client.log), st0, k, quiet, err);
  }

  // ---------------------------------------------------------------------
  // The decorator's arguments
  // ---------------------------------------------------------------------

  /** A `subscriptions` or `publications` argument to `MQTTConnect`, by the shapes its check tells apart. */
  datatype TopicsArg =
    | NoTopics                        // `None`, the default
    | OneTopic(s: string)             // a lone `str`
    | TopicList(topics: seq<string>)  // any other iterable (of strings, here)
    | NotIterable

  /**
   * The argument check of `MQTTConnect.__init__`: `None` stays `None`, a
   * lone string becomes a one-element list instead of being iterated
   * character by character, any other iterable is kept as it came, and a
   * non-iterable raises `UserWarning`.
   */
  function CheckTopics(arg: TopicsArg): (r: Result<Option<seq<string>>>)
    ensures r.Raise? <==> arg.NotIterable?
    ensures r.Raise? ==> r.exc == UserWarning
    ensures r == Ok(None) <==> arg.NoTopics?
    ensures arg.OneTopic? ==> r == Ok(Some([arg.s]))
    ensures arg.TopicList? ==> r == Ok(Some(arg.topics))
  {
    match arg
    case NoTopics => Ok(None)
    case OneTopic(s) => Ok(Some([s]))
    case TopicList(topics) => Ok(Some(topics))
    case NotIterable => Raise(UserWarning)
  }

  /** The decorator object: both topic lists, checked. */
  datatype Decorator = Decorator(subscriptions: Option<seq<string>>, publications: Option<seq<string>>)

  /** `MQTTConnect(subscriptions, publications)`: subscriptions are checked first, then publications. */
  function NewDecorator(subs: TopicsArg, pubs: TopicsArg): (r: Result<Decorator>)
    ensures r.Ok? <==> !subs.NotIterable? && !pubs.NotIterable?
    ensures r.Raise? ==> r.exc == UserWarning
    ensures r.Ok? ==> r.value.subscriptions == CheckTopics(subs).value
                      && r.value.publications == CheckTopics(pubs).value
  {
    match CheckTopics(subs)
    case Raise(x) => Raise(x)
    case Ok(s) =>
      match CheckTopics(pubs)
      case Raise(x) => Raise(x)
      case Ok(p) => Ok(Decorator(s, p))
  }

  /** The decorator of `TemperatureWatcher`: one subscription given as a lone string, two publications. */
  lemma TemperatureWatcherDecorator()
    ensures NewDecorator(OneTopic("TEMPERATURE"), TopicList(["TEMPERATURE", "AIR_COND/SOUTH"])) ==
            Ok(Decorator(Some(["TEMPERATURE"]), Some(["TEMPERATURE", "AIR_COND/SOUTH"])))
  {
  }

  // ---------------------------------------------------------------------
  // The binder, specified by pure loop models
  // ---------------------------------------------------------------------

  predicate AllPlain(f: map<string, Field>) {
    forall n | n in f :: f[n].Plain?
  }

  /** No field name contains a slash, as with every name an ordinary assignment creates. */
  predicate SlashFreeNames(f: map<string, Field>) {
    forall n | n in f :: '/' !in n
  }

  /** The handlers a field map holds. */
  function HandlersIn(f: map<string, Field>): (r: set<TopicHandler>)
    ensures forall n | HoldsHandler(f, n) :: f[n].h in r
  {
    set n | n in f && f[n].Handler? :: f[n].h
  }

  /** The fields after the binder stores handler `t` under `name`: a field already holding a handler keeps it. */
  function AttachField(f: map<string, Field>, name: string, t: TopicHandler): (r: map<string, Field>)
    ensures HoldsHandler(r, name)
    ensures HoldsHandler(f, name) ==> r == f
    ensures !HoldsHandler(f, name) ==> r == f[name := Handler(t)]
  {
    if HoldsHandler(f, name) then f else f[name := Handler(t)]
  }

  /** Fields and registry entries after the subscription loop. */
  datatype Bound = Bound(fields: map<string, Field>, entries: seq<(Instance, string)>)

  /**
   * The registry after a subscribe call for `topic` by object `o` with
   * fields `f`: `note_subscribers` runs only when the call succeeded, and
   * records the object only when it has a field named exactly `topic`.
   */
  function Note(e: seq<(Instance, string)>, o: Instance, f: map<string, Field>, topic: string, ok: bool)
    : (r: seq<(Instance, string)>)
    ensures ok && topic in f ==> r == Assign(e, o, topic)
    ensures !(ok && topic in f) ==> r == e
  {
    if ok && topic in f then Assign(e, o, topic) else e
  }

  /**
   * The subscription loop of `wrapper` for object `o`: subscription `j`
   * is sent to the client (which answers `reply(base + j)`), handler
   * `cells[j]` is stored under the field name, and on success the object is
   * noted with the raw topic.
   */
  function SubLoop(o: Instance, f: map<string, Field>, e: seq<(Instance, string)>, subs: seq<string>,
                   cells: seq<TopicHandler>, reply: nat -> int, base: nat): (r: Bound)
    requires |cells| == |subs|
    decreases |subs|
  {
    if subs == [] then Bound(f, e)
    else
      var n := |subs| - 1;
      SubStep(o, SubLoop(o, f, e, subs[..n], cells[..n], reply, base), subs[n], cells[n],
              reply(base + n) == MQTT_ERR_SUCCESS)
  }

  /** One pass of the subscription loop: attach the handler, then note the raw topic if it names a field. */
  function SubStep(o: Instance, prev: Bound, sub: string, t: TopicHandler, ok: bool): Bound
  {
    var g := AttachField(prev.fields, ReplaceSlash(sub), t);
    Bound(g, Note(prev.entries, o, g, sub, ok))
  }

  /**
   * One pass of the subscription loop keeps a handler already under the
   * derived name or stores the new one there, and changes the registry
   * only on success, when the raw topic names a field; the object is then
   * the key added.
   */
  lemma SubStepEffect(o: Instance, prev: Bound, sub: string, t: TopicHandler, ok: bool)
    ensures var r := SubStep(o, prev, sub, t, ok);
            && (HoldsHandler(prev.fields, ReplaceSlash(sub)) ==> r.fields == prev.fields)
            && (!HoldsHandler(prev.fields, ReplaceSlash(sub)) ==> r.fields == prev.fields[ReplaceSlash(sub) := Handler(t)])
            && (r.entries != prev.entries ==> ok && sub in r.fields)
            && Keys(r.entries) <= Keys(prev.entries) + {o}
  {
  }

  /**
   * The subscription loop removes no field, and the only registry key it
   * can add is the object itself.
   */
  lemma {:induction false} SubLoopGrows(o: Instance, f: map<string, Field>, e: seq<(Instance, string)>,
                                        subs: seq<string>, cells: seq<TopicHandler>, reply: nat -> int, base: nat)
    requires |cells| == |subs|
    ensures var r := SubLoop(o, f, e, subs, cells, reply, base);
            f.Keys <= r.fields.Keys && Keys(e) <= Keys(r.entries) <= Keys(e) + {o}
    decreases |subs|
  {
    if subs != [] {
      var n := |subs| - 1;
      SubLoopGrows(o, f, e, subs[..n], cells[..n], reply, base);
    }
  }

  /** The subscription loop's last step, in terms of the state before it. */
  lemma SubLoopLast(o: Instance, f: map<string, Field>, e: seq<(Instance, string)>, subs: seq<string>,
                    cells: seq<TopicHandler>, reply: nat -> int, base: nat)
    requires |cells| == |subs| > 0
    ensures var n := |subs| - 1;
            SubLoop(o, f, e, subs, cells, reply, base) ==
            SubStep(o, SubLoop(o, f, e, subs[..n], cells[..n], reply, base), subs[n], cells[n],
                    reply(base + n) == MQTT_ERR_SUCCESS)
  {
  }

  /** One more subscription, in terms of the state before it. */
  lemma SubLoopNext(o: Instance, f: map<string, Field>, e: seq<(Instance, string)>, done: seq<string>,
                    cells: seq<TopicHandler>, sub: string, t: TopicHandler, reply: nat -> int, base: nat,
                    f1: map<string, Field>, e1: seq<(Instance, string)>,
                    f2: map<string, Field>, e2: seq<(Instance, string)>)
    requires |cells| == |done|
    requires SubLoop(o, f, e, done, cells, reply, base) == Bound(f1, e1)
    requires f2 == AttachField(f1, ReplaceSlash(sub), t)
    requires e2 == Note(e1, o, f2, sub, reply(base + |done|) == MQTT_ERR_SUCCESS)
    ensures SubLoop(o, f, e, done + [sub], cells + [t], reply, base) == Bound(f2, e2)
  {
    var s, cs := done + [sub], cells + [t];
    assert s[..|done|] == done && cs[..|done|] == cells;
    assert s[|done|] == sub && cs[|done|] == t;
    SubLoopLast(o, f, e, s, cs, reply, base);
  }

  /**
   * Whatever the client answers, every subscription's field holds a
   * handler afterwards, and a field that already held a handler still holds
   * it.
   */
  lemma {:induction false} SubLoopAttachesAll(o: Instance, f: map<string, Field>, e: seq<(Instance, string)>,
                                              subs: seq<string>, cells: seq<TopicHandler>, reply: nat -> int, base: nat)
    requires |cells| == |subs|
    ensures var r := SubLoop(o, f, e, subs, cells, reply, base).fields;
            && (forall j | 0 <= j < |subs| :: HoldsHandler(r, ReplaceSlash(subs[j])))
            && (forall n | HoldsHandler(f, n) :: HoldsHandler(r, n) && r[n] == f[n])
    decreases |subs|
  {
    if subs != [] {
      var n := |subs| - 1;
      SubLoopAttachesAll(o, f, e, subs[..n], cells[..n], reply, base);
      var r := SubLoop(o, f, e, subs, cells, reply, base).fields;
      forall j | 0 <= j < n
        ensures HoldsHandler(r, ReplaceSlash(subs[j]))
      {
        assert subs[..n][j] == subs[j];
      }
    }
  }

  /** The subscription loop adds no field but the subscriptions' field names, and changes no other field. */
  lemma {:induction false} SubLoopTouchesOnlyTheirNames(o: Instance, f: map<string, Field>, e: seq<(Instance, string)>,
                                                        subs: seq<string>, cells: seq<TopicHandler>, reply: nat -> int,
                                                        base: nat, name: string)
    requires |cells| == |subs|
    requires forall j | 0 <= j < |subs| :: name != ReplaceSlash(subs[j])
    ensures var r := SubLoop(o, f, e, subs, cells, reply, base).fields;
            (name in r <==> name in f) && (name in f ==> r[name] == f[name])
    decreases |subs|
  {
    if subs != [] {
      var n := |subs| - 1;
      forall j | 0 <= j < n ensures name != ReplaceSlash(subs[..n][j]) {
        assert subs[..n][j] == subs[j];
      }
      SubLoopTouchesOnlyTheirNames(o, f, e, subs[..n], cells[..n], reply, base, name);
    }
  }

  /** The field names the subscription loop adds are derived names, so they contain no slash either. */
  lemma SubLoopKeepsNamesSlashFree(o: Instance, f: map<string, Field>, e: seq<(Instance, string)>,
                                   subs: seq<string>, cells: seq<TopicHandler>, reply: nat -> int, base: nat)
    requires |cells| == |subs| && SlashFreeNames(f)
    ensures SlashFreeNames(SubLoop(o, f, e, subs, cells, reply, base).fields)
  {
    var r := SubLoop(o, f, e, subs, cells, reply, base).fields;
    forall n | n in r ensures '/' !in n {
      if j :| 0 <= j < |subs| && n == ReplaceSlash(subs[j]) {
        ReplaceSlashIdempotent(subs[j]);
      } else {
        SubLoopTouchesOnlyTheirNames(o, f, e, subs, cells, reply, base, n);
      }
    }
  }

  /** The last subscription whose subscribe call succeeded and whose topic has no slash, if any. */
  function LastNoted(subs: seq<string>, reply: nat -> int, base: nat): (r: Option<string>)
    ensures r.Some? ==> '/' !in r.value && r.value in subs
    decreases |subs|
  {
    if subs == [] then None
    else
      var n := |subs| - 1;
      if reply(base + n) == MQTT_ERR_SUCCESS && '/' !in subs[n] then Some(subs[n])
      else
        var r := LastNoted(subs[..n], reply, base);
        assert r.Some? ==> r.value in subs by {
          if r.Some? {
            var i :| 0 <= i < n && subs[..n][i] == r.value;
            assert subs[i] == r.value;
          }
        }
        r
  }

  /**
   * The registry keeps one topic per object: after the subscription loop
   * on an object whose field names have no slash, the object is registered
   * with the last subscription that succeeded and has no slash (a topic
   * with a slash is looked up by its raw name, which is never a field), or
   * as before when there is none; every other object's registration is
   * unchanged.
   */
  lemma {:induction false} SubLoopNotesLastTopic(o: Instance, f: map<string, Field>, e: seq<(Instance, string)>,
                                                 subs: seq<string>, cells: seq<TopicHandler>, reply: nat -> int, base: nat)
    requires |cells| == |subs| && SlashFreeNames(f) && DistinctKeys(e)
    ensures NotedLast(SubLoop(o, f, e, subs, cells, reply, base).entries, o, e, subs, reply, base)
    decreases |subs|
  {
    if subs != [] {
      var n := |subs| - 1;
      var subs', cells' := subs[..n], cells[..n];
      SubLoopNotesLastTopic(o, f, e, subs', cells', reply, base);
      SubLoopKeepsNamesSlashFree(o, f, e, subs', cells', reply, base);
      var prev := SubLoop(o, f, e, subs', cells', reply, base);
      SubLoopLast(o, f, e, subs, cells, reply, base);
      NotesLastStep(o, e, prev.entries, prev.fields, subs, cells[n], reply, base);
    }
  }

  /**
   * `r` is the registry `e` after subscriptions `subs` by object `o`: a
   * dict, with `o` registered under the last subscription that succeeded
   * and has no slash (as in `e` when there is none), and every other object
   * as in `e` (an object in neither registry is absent from both).
   */
  ghost predicate NotedLast(r: seq<(Instance, string)>, o: Instance, e: seq<(Instance, string)>, subs: seq<string>,
                            reply: nat -> int, base: nat)
  {
    && DistinctKeys(r)
    && Lookup(r, o) == (if LastNoted(subs, reply, base).Some? then LastNoted(subs, reply, base) else Lookup(e, o))
    && (forall x | x in Keys(r) + Keys(e) && x != o :: Lookup(r, x) == Lookup(e, x))
  }

  /** One more subscription keeps `NotedLast`. */
  lemma NotesLastStep(o: Instance, e: seq<(Instance, string)>, prev: seq<(Instance, string)>, fields: map<string, Field>,
                      subs: seq<string>, t: TopicHandler, reply: nat -> int, base: nat)
    requires |subs| > 0 && SlashFreeNames(fields)
    requires NotedLast(prev, o, e, subs[..|subs| - 1], reply, base)
    ensures var n := |subs| - 1;
            NotedLast(Note(prev, o, AttachField(fields, ReplaceSlash(subs[n]), t), subs[n], reply(base + n) == MQTT_ERR_SUCCESS),
                      o, e, subs, reply, base)
  {
    var n := |subs| - 1;
    var g := AttachField(fields, ReplaceSlash(subs[n]), t);
    var ok := reply(base + n) == MQTT_ERR_SUCCESS;
    var r := Note(prev, o, g, subs[n], ok);
    NotedUnderRawName(fields, subs[n], t);
    NoteLookup(prev, o, g, subs[n], ok);
    assert LastNoted(subs, reply, base) ==
           if ok && '/' !in subs[n] then Some(subs[n]) else LastNoted(subs[..n], reply, base);
    forall x | x in Keys(r) + Keys(e) && x != o
      ensures Lookup(r, x) == Lookup(e, x)
    {
      assert Lookup(r, x) == Lookup(prev, x);
    }
  }

  /** On fields without slashes in their names, a topic is found under its raw name after its handler is stored exactly when it has no slash. */
  lemma NotedUnderRawName(f: map<string, Field>, sub: string, t: TopicHandler)
    requires SlashFreeNames(f)
    ensures sub in AttachField(f, ReplaceSlash(sub), t) <==> '/' !in sub
  {
    if '/' !in sub {
      ReplaceSlashFixesSlashFree(sub);
    } else {
      ReplaceSlashIdempotent(sub);
      assert sub != ReplaceSlash(sub);
    }
  }

  /** `note_subscribers` replaces or adds the object's own entry and no other. */
  lemma NoteLookup(e: seq<(Instance, string)>, o: Instance, f: map<string, Field>, topic: string, ok: bool)
    requires DistinctKeys(e)
    ensures DistinctKeys(Note(e, o, f, topic, ok))
    ensures Lookup(Note(e, o, f, topic, ok), o) == if ok && topic in f then Some(topic) else Lookup(e, o)
    ensures forall x: Instance | x != o :: Lookup(Note(e, o, f, topic, ok), x) == Lookup(e, x)
  {
    if ok && topic in f {
      AssignLookup(e, o, topic, o);
      forall x: Instance | x != o
        ensures Lookup(Assign(e, o, topic), x) == Lookup(e, x)
      {
        AssignLookup(e, o, topic, x);
      }
    }
  }

  /**
   * Two successful subscriptions on one object: the registry ends up with
   * the second topic alone, so messages on the first are never delivered.
   */
  lemma SecondSubscriptionReplacesFirst(o: Instance, f: map<string, Field>, t1: TopicHandler, t2: TopicHandler,
                                        reply: nat -> int)
    requires reply(0) == MQTT_ERR_SUCCESS && reply(1) == MQTT_ERR_SUCCESS
    ensures SubLoop(o, f, [], ["A", "B"], [t1, t2], reply, 0).entries == [(o, "B")]
  {
    var subs, cells := ["A", "B"], [t1, t2];
    assert subs[..1] == ["A"] && cells[..1] == [t1];
    assert ["A"][..0] == [] && [t1][..0] == [];
    ReplaceSlashFixesSlashFree("A");
    ReplaceSlashFixesSlashFree("B");
    var first := SubLoop(o, f, [], ["A"], [t1], reply, 0);
    assert first.entries == [(o, "A")];
    assert IndexOfKey(first.entries, o) == Some(0);
  }

  /**
   * A successful subscription to a topic with a slash, on an object whose
   * field names have none, leaves the registry as it was: the handler is
   * stored under `AIR_COND_SOUTH` but looked up as `AIR_COND/SOUTH`.
   */
  lemma SlashTopicIsNotRegistered(o: Instance, f: map<string, Field>, e: seq<(Instance, string)>, t: TopicHandler,
                                  reply: nat -> int, base: nat)
    requires SlashFreeNames(f) && reply(base) == MQTT_ERR_SUCCESS
    ensures SubLoop(o, f, e, ["AIR_COND/SOUTH"], [t], reply, base).entries == e
  {
    assert "AIR_COND/SOUTH"[8] == '/';
    SubLoopKeepsNamesSlashFree(o, f, e, ["AIR_COND/SOUTH"], [t], reply, base);
  }

  /** Fields after the publication loop, and the handlers that may now publish. */
  datatype Published = Published(fields: map<string, Field>, publishable: set<TopicHandler>)

  /**
   * One step of the publication loop of `wrapper`, for publication `pub`
   * with `t` the new handler made for it when it is not a subscription. A
   * membership test against absent subscriptions raises `TypeError`; a
   * publication that is also a subscription lets the handler in its field
   * publish (a missing field is a `KeyError`, a plain one an
   * `AttributeError`); any other publication stores its new handler, which
   * a field already holding a handler hands to that handler's setter: a
   * handler that cannot publish ignores it, one that can passes it to the
   * client, which rejects it with `TypeError`.
   */
  function PubStep(st: Published, subs: Option<seq<string>>, pub: string, t: TopicHandler): (r: Result<Published>)
    ensures r.Raise? <==> PubFault(st, subs, pub).Some?
    ensures r.Ok? ==> r.value.publishable >= st.publishable
    ensures r.Ok? ==> forall n | HoldsHandler(st.fields, n) :: HoldsHandler(r.value.fields, n) && r.value.fields[n] == st.fields[n]
    ensures r.Ok? ==> forall n | HoldsHandler(r.value.fields, n) && !HoldsHandler(st.fields, n) ::
                        r.value.fields[n].h in r.value.publishable
    ensures r.Ok? ==> HoldsHandler(r.value.fields, ReplaceSlash(pub))
    ensures r.Ok? && ((subs.Some? && pub in subs.value) || !HoldsHandler(st.fields, ReplaceSlash(pub))) ==>
              r.value.fields[ReplaceSlash(pub)].h in r.value.publishable
  {
    var fault := PubFault(st, subs, pub);
    if fault.Some? then Raise(fault.value)
    else
      var name := ReplaceSlash(pub);
      if pub in subs.value then Ok(Published(st.fields, st.publishable + {st.fields[name].h}))
      else if HoldsHandler(st.fields, name) then Ok(st)
      else Ok(Published(st.fields[name := Handler(t)], st.publishable + {t}))
  }

  /**
   * The exception the publication step for `pub` raises from `st`, if
   * any: it is raised before any handler is made or changed.
   */
  function PubFault(st: Published, subs: Option<seq<string>>, pub: string): (r: Option<Exception>)
    ensures subs.None? ==> r == Some(TypeError)
    ensures r.Some? && subs.Some? && pub in subs.value ==> !HoldsHandler(st.fields, ReplaceSlash(pub))
    ensures r.Some? && !(subs.Some? && pub in subs.value) ==> r == Some(TypeError)
    ensures r.None? && subs.Some? && pub in subs.value ==> HoldsHandler(st.fields, ReplaceSlash(pub))
  {
    if subs.None? then Some(TypeError)
    else
      var name := ReplaceSlash(pub);
      if pub in subs.value then
        if name !in st.fields then Some(KeyError)
        else if st.fields[name].Plain? then Some(AttributeError)
        else None
      else if HoldsHandler(st.fields, name) && st.fields[name].h in st.publishable then Some(TypeError)
      else None
  }


  /** The publication loop of `wrapper`: the steps in order, stopping at the first exception. */
  function PubLoop(st: Published, subs: Option<seq<string>>, pubs: seq<string>, cells: seq<TopicHandler>)
    : (r: Result<Published>)
    requires |cells| == |pubs|
    ensures r.Ok? ==> r.value.publishable >= st.publishable
    ensures r.Ok? ==> forall n | HoldsHandler(st.fields, n) :: HoldsHandler(r.value.fields, n) && r.value.fields[n] == st.fields[n]
    ensures r.Ok? ==> forall n | HoldsHandler(r.value.fields, n) && !HoldsHandler(st.fields, n) ::
                        r.value.fields[n].h in r.value.publishable
    decreases |pubs|
  {
    if pubs == [] then Ok(st)
    else
      var n := |pubs| - 1;
      match PubLoop(st, subs, pubs[..n], cells[..n])
      case Raise(x) => Raise(x)
      case Ok(mid) => PubStep(mid, subs, pubs[n], cells[n])
  }

  /** The publication loop's next step, in terms of the state before it. */
  lemma PubLoopNext(st: Published, subs: Option<seq<string>>, done: seq<string>, cells: seq<TopicHandler>,
                    pub: string, x: TopicHandler, mid: Published)
    requires |cells| == |done| && PubLoop(st, subs, done, cells) == Ok(mid)
    ensures PubLoop(st, subs, done + [pub], cells + [x]) == PubStep(mid, subs, pub, x)
  {
    var s, cs := done + [pub], cells + [x];
    assert s[..|done|] == done && cs[..|done|] == cells;
    assert s[|done|] == pub && cs[|done|] == x;
  }

  /**
   * A decorated class with publications but no subscriptions cannot be
   * instantiated: the first publication's membership test raises `TypeError`.
   */
  lemma {:induction false} PubLoopWithoutSubscriptions(st: Published, pubs: seq<string>, cells: seq<TopicHandler>)
    requires |cells| == |pubs| > 0
    ensures PubLoop(st, None, pubs, cells) == Raise(TypeError)
    decreases |pubs|
  {
    var n := |pubs| - 1;
    if n > 0 {
      PubLoopWithoutSubscriptions(st, pubs[..n], cells[..n]);
    }
  }

  /**
   * After the subscription loop every subscription's field holds a
   * handler, so a publication that is a subscription always finds one: the
   * only exception the publication loop can then raise is `TypeError`, from
   * a field name shared with a handler that may already publish.
   */
  lemma {:induction false} PubLoopRaisesOnlyTypeError(st: Published, subs: seq<string>, pubs: seq<string>,
                                                      cells: seq<TopicHandler>)
    requires |cells| == |pubs|
    requires forall j | 0 <= j < |subs| :: HoldsHandler(st.fields, ReplaceSlash(subs[j]))
    ensures PubLoop(st, Some(subs), pubs, cells).Raise? ==> PubLoop(st, Some(subs), pubs, cells).exc == TypeError
    decreases |pubs|
  {
    if pubs != [] {
      var n := |pubs| - 1;
      PubLoopRaisesOnlyTypeError(st, subs, pubs[..n], cells[..n]);
      var prev := PubLoop(st, Some(subs), pubs[..n], cells[..n]);
      if prev.Ok? && pubs[n] in subs {
        var j :| 0 <= j < |subs| && subs[j] == pubs[n];
        assert HoldsHandler(prev.value.fields, ReplaceSlash(subs[j]));
      }
    }
  }

  /**
   * After a loop that raised nothing, every publication's field holds a
   * handler; that handler may publish when the publication is a
   * subscription or its field held no handler before the loop.
   */
  lemma {:induction false} PubLoopPublishesAll(st: Published, subs: Option<seq<string>>, pubs: seq<string>,
                                               cells: seq<TopicHandler>)
    requires |cells| == |pubs| && PubLoop(st, subs, pubs, cells).Ok?
    ensures var r := PubLoop(st, subs, pubs, cells).value;
            forall j | 0 <= j < |pubs| :: HoldsHandler(r.fields, ReplaceSlash(pubs[j]))
    ensures var r := PubLoop(st, subs, pubs, cells).value;
            forall j | 0 <= j < |pubs| && ((subs.Some? && pubs[j] in subs.value) || !HoldsHandler(st.fields, ReplaceSlash(pubs[j]))) ::
              r.fields[ReplaceSlash(pubs[j])].h in r.publishable
    decreases |pubs|
  {
    if pubs != [] {
      var n := |pubs| - 1;
      var pubs', cells' := pubs[..n], cells[..n];
      PubLoopPublishesAll(st, subs, pubs', cells');
      var mid := PubLoop(st, subs, pubs', cells').value;
      var r := PubLoop(st, subs, pubs, cells).value;
      assert r == PubStep(mid, subs, pubs[n], cells[n]).value;
      var name := ReplaceSlash(pubs[n]);
      if !(subs.Some? && pubs[n] in subs.value) && !HoldsHandler(st.fields, name) {
        assert !HoldsHandler(mid.fields, name) by {
          if HoldsHandler(mid.fields, name) {
            assert false;
          }
        }
      }
      forall j | 0 <= j < n
        ensures HoldsHandler(r.fields, ReplaceSlash(pubs[j]))
        ensures (subs.Some? && pubs[j] in subs.value) || !HoldsHandler(st.fields, ReplaceSlash(pubs[j])) ==>
                r.fields[ReplaceSlash(pubs[j])].h in r.publishable
      {
        assert pubs'[j] == pubs[j];
      }
    }
  }

  /** A single subscription on fields without a handler under its name stores its handler there. */
  lemma OneSubscription(o: Instance, f: map<string, Field>, e: seq<(Instance, string)>, s: string, t: TopicHandler,
                        reply: nat -> int, base: nat)
    requires !HoldsHandler(f, ReplaceSlash(s))
    ensures SubLoop(o, f, e, [s], [t], reply, base).fields == f[ReplaceSlash(s) := Handler(t)]
  {
    assert [s][..0] == [] && [t][..0] == [];
    SubLoopLast(o, f, e, [s], [t], reply, base);
  }

  /**
   * A subscription `s` that is also published, followed by a publication
   * `p` of a field of its own: the subscription's handler becomes
   * publishable and `p` gets its new handler.
   */
  lemma SharedThenOwnPublication(f: map<string, Field>, s: string, p: string, t1: TopicHandler, x: TopicHandler,
                                 t2: TopicHandler)
    requires ReplaceSlash(s) in f && f[ReplaceSlash(s)] == Handler(t1)
    requires p != s && ReplaceSlash(p) !in f
    ensures PubLoop(Published(f, {}), Some([s]), [s, p], [x, t2]) ==
            Ok(Published(f[ReplaceSlash(p) := Handler(t2)], {t1, t2}))
  {
    var st := Published(f, {});
    var mid := Published(f, {t1});
    assert s in [s];
    assert st.fields[ReplaceSlash(s)].h == t1;
    assert st.publishable + {t1} == {t1};
    assert PubStep(st, Some([s]), s, x) == Ok(mid);
    PubLoopNext(st, Some([s]), [], [], s, x, st);
    assert [] + [s] == [s] && [] + [x] == [x];
    assert PubLoop(st, Some([s]), [s], [x]) == Ok(mid);
    assert p !in [s] && !HoldsHandler(mid.fields, ReplaceSlash(p));
    assert mid.publishable + {t2} == {t1, t2};
    assert PubStep(mid, Some([s]), p, t2) == Ok(Published(mid.fields[ReplaceSlash(p) := Handler(t2)], mid.publishable + {t2}));
    PubLoopNext(st, Some([s]), [s], [x], p, t2, mid);
    assert [s] + [p] == [s, p] && [x] + [t2] == [x, t2];
  }

  /**
   * Binding `TemperatureWatcher(hold)` from scratch: `TEMPERATURE` is
   * subscribed and then shared by its publication, `AIR_COND/SOUTH` gets
   * its own handler under `AIR_COND_SOUTH`, and both handlers may publish.
   */
  lemma TemperatureWatcherBinding(o: Instance, hold: Value, e: seq<(Instance, string)>, t1: TopicHandler,
                                  x: TopicHandler, t2: TopicHandler, reply: nat -> int, base: nat,
                                  temp: string, south: string)
    requires temp == "TEMPERATURE" && south == "AIR_COND/SOUTH"
    ensures var sub := SubLoop(o, map["hold_temp" := Plain(hold)], e, [temp], [t1], reply, base);
            && sub.fields == map["hold_temp" := Plain(hold), temp := Handler(t1)]
            && PubLoop(Published(sub.fields, {}), Some([temp]), [temp, south], [x, t2]) ==
               Ok(Published(sub.fields["AIR_COND_SOUTH" := Handler(t2)], {t1, t2}))
  {
    TemperatureWatcherNames(temp, south);
    assert |temp| == 11 && |south| == 14 && |"hold_temp"| == 9 && |"AIR_COND_SOUTH"| == 14;
    var f0 := map["hold_temp" := Plain(hold)];
    OneSubscription(o, f0, e, temp, t1, reply, base);
    var f1 := f0[temp := Handler(t1)];
    SharedThenOwnPublication(f1, temp, south, t1, x, t2);
  }

  /** The field names of `TemperatureWatcher`'s topics. */
  lemma TemperatureWatcherNames(temp: string, south: string)
    requires temp == "TEMPERATURE" && south == "AIR_COND/SOUTH"
    ensures ReplaceSlash(temp) == temp && ReplaceSlash(south) == "AIR_COND_SOUTH"
  {
    assert '/' !in temp;
    ReplaceSlashFixesSlashFree(temp);
    ReplaceSlashExample();
  }

  // ---------------------------------------------------------------------
  // The binder on the heap
  // ---------------------------------------------------------------------

  /** A handler as its constructor left it, apart from the two flags the binder sets. */
  ghost predicate Pristine(t: TopicHandler, topic: string)
    reads t`value, t`lastMessageTime, t`lastPublishTime, t`onChange, t`onChangeCalls
  {
    && t.topic == topic && t.value == Text(NOT_SET) && t.lastMessageTime == 0.0 && t.lastPublishTime == 0.0
    && t.onChange == PrintOnly && t.onChangeCalls == 0
  }

  /** A handler the subscription loop made for `topic`, before any publication is considered. */
  ghost predicate SubscriptionHandler(t: TopicHandler, topic: string)
    reads t
  {
    Pristine(t, topic) && t.isSubscribed && !t.canPublish
  }

  /** The handlers the subscription loop made, one per subscription in order. */
  ghost predicate SubscriptionHandlers(cells: seq<TopicHandler>, subs: seq<string>)
    requires |cells| <= |subs|
    reads cells
  {
    forall j | 0 <= j < |cells| :: SubscriptionHandler(cells[j], subs[j])
  }

  /** A handler the publication loop made for `topic`, apart from its publish permission. */
  ghost predicate PublicationHandler(t: TopicHandler, topic: string)
    reads t`isSubscribed, t`value, t`lastMessageTime, t`lastPublishTime, t`onChange, t`onChangeCalls
  {
    Pristine(t, topic) && !t.isSubscribed
  }

  /** The new handlers the publication loop made: one per publication that is not a subscription. */
  ghost predicate PublicationHandlers(cells: seq<TopicHandler>, subs: Option<seq<string>>, pubs: seq<string>)
    requires |cells| <= |pubs|
    reads cells`isSubscribed, cells`value, cells`lastMessageTime, cells`lastPublishTime, cells`onChange,
          cells`onChangeCalls
  {
    forall j | 0 <= j < |cells| && subs.Some? && pubs[j] !in subs.value :: PublicationHandler(cells[j], pubs[j])
  }

  /**
   * The binder's `setattr(o, name, t)` for a new handler `t`, which goes
   * through the intercepted assignment: a free or plain field takes the
   * handler; a field already holding a handler keeps it and `t` is handed
   * to its `value` setter, which sends nothing when that handler cannot
   * publish, and otherwise reaches the client with a payload it rejects
   * (`TypeError`).
   */
  method AttachHandler(o: Instance, name: string, t: TopicHandler) returns (err: Option<Exception>)
    modifies o`fields
    ensures !HoldsHandler(old(o.fields), name) ==> o.fields == old(o.fields)[name := Handler(t)] && err == None
    ensures HoldsHandler(old(o.fields), name) ==> o.fields == old(o.fields)
    ensures HoldsHandler(old(o.fields), name) ==>
              err == if o.fields[name].h.canPublish then Some(TypeError) else None
  {
    if name in o.fields && o.fields[name].Handler? {
      err := if o.fields[name].h.canPublish then Some(TypeError) else None;
    } else {
      o.fields := o.fields[name := Handler(t)];
      err := None;
    }
  }

  /**
   * One pass of the subscription loop of `wrapper`: the client is asked to
   * subscribe, a new subscribed handler is stored under the field name (a
   * field already holding a handler keeps it), and on `MQTT_ERR_SUCCESS`
   * the object is noted with the raw topic.
   */
  method SubscribeOne(o: Instance, reg: Subscribers, client: Client, sub: string)
    returns (t: TopicHandler, ghost ok: bool)
    requires reg.Valid()
    requires HoldsHandler(o.fields, ReplaceSlash(sub)) ==> !o.fields[ReplaceSlash(sub)].h.canPublish
    modifies o`fields, client`log, reg`entries
    ensures fresh(t) && SubscriptionHandler(t, sub)
    ensures ok == (client.Reply(|old(client.log)|) == MQTT_ERR_SUCCESS)
    ensures client.log == old(client.log) + [Call.Subscribe(sub)]
    ensures o.fields == AttachField(old(o.fields), ReplaceSlash(sub), t)
    ensures reg.entries == Note(old(reg.entries), o, o.fields, sub, ok)
    ensures reg.Valid()
  {
    var rc := client.Subscribe(sub);
    ok := rc == MQTT_ERR_SUCCESS;
    t := new TopicHandler(sub);
    t.isSubscribed := true;
    AttachAndNote(o, reg, sub, t, rc == MQTT_ERR_SUCCESS);
  }

  /** The part of one subscription pass after the subscribe call, which leaves the new handler `t` itself alone. */
  method AttachAndNote(o: Instance, reg: Subscribers, sub: string, t: TopicHandler, ok: bool)
    requires reg.Valid()
    requires HoldsHandler(o.fields, ReplaceSlash(sub)) ==> !o.fields[ReplaceSlash(sub)].h.canPublish
    modifies o`fields, reg`entries
    ensures o.fields == AttachField(old(o.fields), ReplaceSlash(sub), t)
    ensures reg.entries == Note(old(reg.entries), o, o.fields, sub, ok)
    ensures reg.Valid()
  {
    var attached := AttachHandler(o, ReplaceSlash(sub), t);
    assert attached.None?;
    if ok {
      NoteSubscribers(sub, o, reg);
    }
  }

  /**
   * The fields, registry entries and client log after the first `k` passes
   * of the subscription loop, started on fields `f0`, registry `e0` and
   * client log `log0`: they are the ones `SubLoop` describes, and every
   * field holding a handler holds one of the `k` handlers made so far.
   */
  ghost predicate Progress(o: Instance, fields: map<string, Field>, entries: seq<(Instance, string)>, log: seq<Call>,
                           subs: seq<string>, k: nat, cells: seq<TopicHandler>, reply: nat -> int,
                           f0: map<string, Field>, e0: seq<(Instance, string)>, log0: seq<Call>)
  {
    && k <= |subs| && |cells| == k
    && log == log0 + SubscribeCalls(subs[..k])
    && Bound(fields, entries) == SubLoop(o, f0, e0, subs[..k], cells, reply, |log0|)
    && DistinctKeys(entries)
    && (forall n | HoldsHandler(fields, n) :: fields[n].h in cells)
  }

  /** One more pass of the subscription loop keeps `Progress`. */
  lemma ProgressStep(o: Instance, fields: map<string, Field>, entries: seq<(Instance, string)>, log: seq<Call>,
                     subs: seq<string>, k: nat, cells: seq<TopicHandler>, reply: nat -> int,
                     f0: map<string, Field>, e0: seq<(Instance, string)>, log0: seq<Call>,
                     t: TopicHandler, fields': map<string, Field>, entries': seq<(Instance, string)>)
    requires Progress(o, fields, entries, log, subs, k, cells, reply, f0, e0, log0)
    requires k < |subs|
    requires fields' == AttachField(fields, ReplaceSlash(subs[k]), t)
    requires entries' == Note(entries, o, fields', subs[k], reply(|log0| + k) == MQTT_ERR_SUCCESS)
    requires DistinctKeys(entries')
    ensures Progress(o, fields', entries', log + [Call.Subscribe(subs[k])], subs, k + 1, cells + [t], reply, f0, e0, log0)
  {
    var sub := subs[k];
    assert subs[..k + 1] == subs[..k] + [sub];
    assert SubscribeCalls(subs[..k + 1]) == SubscribeCalls(subs[..k]) + [Call.Subscribe(sub)] by {
      assert subs[..k + 1][..k] == subs[..k];
    }
    assert |subs[..k]| == |cells| == k;
    SubLoopNext(o, f0, e0, subs[..k], cells, sub, t, reply, |log0|, fields, entries, fields', entries');
  }

  /** The state after the first `k` passes of the subscription loop, heap included. */
  ghost predicate SubState(o: Instance, reg: Subscribers, client: Client, subs: seq<string>, k: nat,
                           cells: seq<TopicHandler>, f0: map<string, Field>, e0: seq<(Instance, string)>, log0: seq<Call>)
    reads o, reg, client, cells
  {
    && Progress(o, o.fields, reg.entries, client.log, subs, k, cells, client.reply, f0, e0, log0)
    && SubscriptionHandlers(cells, subs)
  }

  /** One pass of the subscription loop, in terms of `SubLoop`. */
  method SubscribeStep(o: Instance, reg: Subscribers, client: Client, subs: seq<string>, k: nat,
                       ghost cells: seq<TopicHandler>, ghost f0: map<string, Field>,
                       ghost e0: seq<(Instance, string)>, ghost log0: seq<Call>)
    returns (t: TopicHandler)
    requires k < |subs| && SubState(o, reg, client, subs, k, cells, f0, e0, log0)
    modifies o`fields, client`log, reg`entries
    ensures fresh(t)
    ensures SubState(o, reg, client, subs, k + 1, cells + [t], f0, e0, log0)
  {
    ghost var f1, e1, l1 := o.fields, reg.entries, client.log;
    assert |l1| == |log0| + k;
    assert HoldsHandler(o.fields, ReplaceSlash(subs[k])) ==> o.fields[ReplaceSlash(subs[k])].h in cells;
    ghost var ok;
    t, ok := SubscribeOne(o, reg, client, subs[k]);
    SubscriptionHandlersSnoc(cells, subs, t);
    ProgressStep(o, f1, e1, l1, subs, k, cells, client.reply, f0, e0, log0, t, o.fields, reg.entries);
  }

  /** The handlers a loop has made so far, as a set. */
  ghost function Made(cells: seq<TopicHandler>): set<TopicHandler> {
    set j | 0 <= j < |cells| :: cells[j]
  }

  lemma MadeSnoc(cells: seq<TopicHandler>, t: TopicHandler)
    ensures Made(cells + [t]) == Made(cells) + {t}
  {
    var s := cells + [t];
    assert s[|cells|] == t;
    forall x | x in Made(s) ensures x in Made(cells) + {t} {
      var j :| 0 <= j < |s| && s[j] == x;
      if j < |cells| {
        assert cells[j] == x;
      }
    }
    forall x | x in Made(cells) ensures x in Made(s) {
      var j :| 0 <= j < |cells| && cells[j] == x;
      assert s[j] == x;
    }
  }

  /** Before the first pass of the subscription loop, the state is `SubLoop` of no subscriptions. */
  lemma SubStateInit(o: Instance, reg: Subscribers, client: Client, subs: seq<string>)
    requires AllPlain(o.fields) && reg.Valid()
    ensures SubState(o, reg, client, subs, 0, [], o.fields, reg.entries, client.log)
  {
    assert subs[..0] == [];
  }

  /** The subscription handlers grow by one handler per subscription. */
  lemma SubscriptionHandlersSnoc(cells: seq<TopicHandler>, subs: seq<string>, t: TopicHandler)
    requires |cells| < |subs| && SubscriptionHandlers(cells, subs)
    requires SubscriptionHandler(t, subs[|cells|])
    ensures SubscriptionHandlers(cells + [t], subs)
  {
  }

  /**
   * The subscription loop of `wrapper`: for each subscription in turn the
   * client is asked to subscribe, a new subscribed handler is stored under
   * the field name, and the object is noted on success. Nothing in it
   * raises.
   */
  method AttachSubscriptions(o: Instance, reg: Subscribers, client: Client, subs: seq<string>)
    returns (ghost cells: seq<TopicHandler>)
    requires AllPlain(o.fields) && reg.Valid()
    modifies o`fields, client`log, reg`entries
    ensures SubState(o, reg, client, subs, |subs|, cells, old(o.fields), old(reg.entries), old(client.log))
    ensures fresh(Made(cells))
  {
    cells := [];
    ghost var f0, e0, log0 := o.fields, reg.entries, client.log;
    SubStateInit(o, reg, client, subs);
    var k := 0;
    while k < |subs|
      invariant SubState(o, reg, client, subs, k, cells, f0, e0, log0)
      invariant fresh(Made(cells))
    {
      var t := SubscribeStep(o, reg, client, subs, k, cells, f0, e0, log0);
      MadeSnoc(cells, t);
      cells := cells + [t];
      k := k + 1;
    }
  }

  /** The heap agrees with the publication loop's state: a handler in the fields may publish exactly when it is in `publishable`. */
  ghost predicate PublishFlags(f: map<string, Field>, publishable: set<TopicHandler>)
    reads HandlersIn(f)`canPublish
  {
    forall n | HoldsHandler(f, n) :: f[n].h.canPublish <==> f[n].h in publishable
  }

  /**
   * One pass of the publication loop of `wrapper` for `pub`: a publication
   * that is also a subscription sets `_can_publish` on the handler in its
   * field; any other gets a new publishing handler, stored through the
   * intercepted assignment. `cell` is the handler the pass used, and the
   * outcome is the one `PubStep` describes.
   */
  method PublishOne(o: Instance, subs: Option<seq<string>>, pub: string, ghost P: set<TopicHandler>)
    returns (err: Option<Exception>, ghost cell: TopicHandler?, ghost P': set<TopicHandler>)
    requires PublishFlags(o.fields, P)
    modifies o`fields, HandlersIn(o.fields)`canPublish
    ensures err.Some? ==> o.fields == old(o.fields) && PublishFlags(o.fields, P)
    ensures err == PubFault(Published(old(o.fields), P), subs, pub)
    ensures err.None? ==> cell != null
    ensures err.None? ==> PubStep(Published(old(o.fields), P), subs, pub, cell) == Ok(Published(o.fields, P'))
    ensures err.None? ==> PublishFlags(o.fields, P')
    ensures err.None? && subs.Some? && pub !in subs.value ==> fresh(cell) && cell.canPublish && PublicationHandler(cell, pub)
    ensures err.None? && subs.Some? && pub in subs.value ==> cell in HandlersIn(old(o.fields))
    ensures HandlersIn(o.fields) <= HandlersIn(old(o.fields)) + {cell}
    ensures err.None? ==> cell.canPublish
    ensures forall x | x in HandlersIn(old(o.fields)) && x != cell :: x.canPublish == old(x.canPublish)
  {
    cell, P' := null, P;
    if subs.None? {
      return Some(TypeError), cell, P';
    }
    var name := ReplaceSlash(pub);
    if pub in subs.value {
      if name !in o.fields {
        return Some(KeyError), cell, P';
      }
      match o.fields[name]
      case Plain(_) =>
        return Some(AttributeError), cell, P';
      case Handler(t) =>
        t.canPublish := true;
        cell, P' := t, P + {t};
        err := None;
    } else {
      var t := new TopicHandler(pub);
      t.canPublish := true;
      cell := t;
      err := AttachHandler(o, name, t);
      if err.None? && o.fields != old(o.fields) {
        P' := P + {t};
      }
    }
  }

  /**
   * The object after the first `k` passes of the publication loop, started
   * on `st0`: its fields and publish permissions are the ones `PubLoop`
   * describes, and the new handlers made so far are publication handlers.
   */
  ghost predicate PubState(o: Instance, subs: Option<seq<string>>, pubs: seq<string>, k: nat,
                           cells: seq<TopicHandler>, publishable: set<TopicHandler>, st0: Published)
    reads o, HandlersIn(o.fields)`canPublish, cells`isSubscribed, cells`value, cells`lastMessageTime,
          cells`lastPublishTime, cells`onChange, cells`onChangeCalls
  {
    && k <= |pubs| && |cells| == k
    && PubLoop(st0, subs, pubs[..k], cells) == Ok(Published(o.fields, publishable))
    && PublishFlags(o.fields, publishable)
    && PublicationHandlers(cells, subs, pubs)
  }

  /** The handlers made for publications that are not subscriptions lie outside `old_`. */
  ghost predicate NewCellsOutside(cells: seq<TopicHandler>, subs: Option<seq<string>>, pubs: seq<string>,
                                  old_: set<TopicHandler>)
    requires |cells| <= |pubs|
  {
    forall j | 0 <= j < |cells| && subs.Some? && pubs[j] !in subs.value :: cells[j] !in old_
  }

  lemma NewCellsOutsideSnoc(cells: seq<TopicHandler>, subs: Option<seq<string>>, pubs: seq<string>,
                            old_: set<TopicHandler>, t: TopicHandler)
    requires |cells| < |pubs| && NewCellsOutside(cells, subs, pubs, old_)
    requires subs.Some? && pubs[|cells|] !in subs.value ==> t !in old_
    ensures NewCellsOutside(cells + [t], subs, pubs, old_)
  {
  }

  /** The publication handlers grow by one handler per publication. */
  lemma PublicationHandlersSnoc(cells: seq<TopicHandler>, subs: Option<seq<string>>, pubs: seq<string>, t: TopicHandler)
    requires |cells| < |pubs| && PublicationHandlers(cells, subs, pubs)
    requires subs.Some? && pubs[|cells|] !in subs.value ==> PublicationHandler(t, pubs[|cells|])
    ensures PublicationHandlers(cells + [t], subs, pubs)
  {
  }

  /** One pass of the publication loop, in terms of `PubLoop`. */
  method PublishStep(o: Instance, subs: Option<seq<string>>, pubs: seq<string>, k: nat,
                     ghost cells: seq<TopicHandler>, ghost publishable: set<TopicHandler>, ghost st0: Published,
                     ghost F0: set<TopicHandler>)
    returns (err: Option<Exception>, ghost cell: TopicHandler?, ghost P': set<TopicHandler>)
    requires k < |pubs| && PubState(o, subs, pubs, k, cells, publishable, st0)
    requires NewCellsOutside(cells, subs, pubs, F0)
    modifies o`fields, HandlersIn(o.fields)`canPublish
    ensures err == PubFault(Published(old(o.fields), publishable), subs, pubs[k])
    ensures err.Some? ==> PubState(o, subs, pubs, k, cells, publishable, st0)
    ensures err.None? ==> cell != null && PubState(o, subs, pubs, k + 1, cells + [cell], P', st0)
    ensures err.None? ==> NewCellsOutside(cells + [cell], subs, pubs, F0)
    ensures err.None? ==> cell in HandlersIn(old(o.fields)) || fresh(cell)
    ensures HandlersIn(o.fields) <= HandlersIn(old(o.fields)) + {cell}
  {
    ghost var mid := Published(o.fields, publishable);
    assert pubs[..k + 1] == pubs[..k] + [pubs[k]];
    err, cell, P' := PublishOne(o, subs, pubs[k], publishable);
    if err.None? {
      assert subs.Some? && pubs[k] !in subs.value ==> cell !in F0;
      NewCellsOutsideSnoc(cells, subs, pubs, F0, cell);
      PublicationHandlersSnoc(cells, subs, pubs, cell);
      PubLoopNext(st0, subs, pubs[..k], cells, pubs[k], cell, mid);
    }
  }

  /**
   * The publication loop of `wrapper`: each publication in turn, as
   * `PublishOne` does it, until the first exception. `cells[j]` is the
   * handler pass `j` used, and the fields and publish permissions are the
   * ones `PubLoop` describes; on an exception, the next pass is the one
   * that raised it, whatever handler it was given.
   */
  method AttachPublications(o: Instance, subs: Option<seq<string>>, pubs: seq<string>)
    returns (err: Option<Exception>, ghost cells: seq<TopicHandler>, ghost publishable: set<TopicHandler>)
    requires PublishFlags(o.fields, {})
    modifies o`fields, HandlersIn(o.fields)`canPublish
    ensures PubState(o, subs, pubs, |cells|, cells, publishable, Published(old(o.fields), {}))
    ensures err.None? ==> |cells| == |pubs|
    ensures err.Some? ==> |cells| < |pubs| && err == PubFault(Published(o.fields, publishable), subs, pubs[|cells|])
    ensures NewCellsOutside(cells, subs, pubs, HandlersIn(old(o.fields)))
    ensures forall t | t in HandlersIn(o.fields) :: t in HandlersIn(old(o.fields)) || fresh(t)
  {
    ghost var st0 := Published(o.fields, {});
    ghost var F0 := HandlersIn(o.fields);
    cells, publishable := [], {};
    var k := 0;
    while k < |pubs|
      invariant PubState(o, subs, pubs, k, cells, publishable, st0)
      invariant forall t | t in HandlersIn(o.fields) :: t in F0 || fresh(t)
      invariant NewCellsOutside(cells, subs, pubs, F0)
    {
      var e, cell, P' := PublishStep(o, subs, pubs, k, cells, publishable, st0, F0);
      if e.Some? {
        return e, cells, publishable;
      }
      cells, publishable := cells + [cell], P';
      k := k + 1;
    }
    err := None;
  }

  // ---------------------------------------------------------------------
  // The binder: `wrapper`
  // ---------------------------------------------------------------------

  /**
   * What the subscription loop left: the fields `f`, registry `e` and
   * client log `log` that the whole loop specification gives from `f0`,
   * `e0` and `log0`, one subscribe call per topic; nothing when the class
   * has no subscriptions.
   */
  ghost predicate SubPhase(dec: Decorator, o: Instance, reply: nat -> int,
                           f0: map<string, Field>, e0: seq<(Instance, string)>, log0: seq<Call>,
                           f: map<string, Field>, e: seq<(Instance, string)>, log: seq<Call>,
                           subCells: seq<TopicHandler>)
  {
    match dec.subscriptions
    case None => subCells == [] && f == f0 && e == e0 && log == log0
    case Some(subs) =>
      && |subCells| == |subs|
      && Bound(f, e) == SubLoop(o, f0, e0, subs, subCells, reply, |log0|)
      && log == log0 + SubscribeCalls(subs)
  }

  /**
   * What the publication loop left, starting from the fields `mid`: the
   * steps that completed, as the loop specification gives them, and, when
   * it stopped early, the exception of the step that raised.
   */
  ghost predicate PubPhase(dec: Decorator, mid: map<string, Field>, f: map<string, Field>,
                           publishable: set<TopicHandler>, pubCells: seq<TopicHandler>, err: Option<Exception>)
  {
    match dec.publications
    case None => f == mid && pubCells == [] && publishable == {} && err.None?
    case Some(pubs) =>
      && |pubCells| <= |pubs|
      && PubLoop(Published(mid, {}), dec.subscriptions, pubs[..|pubCells|], pubCells) == Ok(Published(f, publishable))
      && (err.None? ==> |pubCells| == |pubs|)
      && (err.Some? ==> |pubCells| < |pubs| && err == PubFault(Published(f, publishable), dec.subscriptions, pubs[|pubCells|]))
  }

  /**
   * The subscription half of `wrapper`: it raises nothing. Every handler
   * it leaves is new and cannot publish yet.
   */
  method BindSubscriptions(dec: Decorator, o: Instance, reg: Subscribers, client: Client)
    returns (ghost subCells: seq<TopicHandler>)
    requires AllPlain(o.fields) && reg.Valid()
    modifies o`fields, client`log, reg`entries
    ensures reg.Valid()
    ensures SubPhase(dec, o, client.reply, old(o.fields), old(reg.entries), old(client.log),
                     o.fields, reg.entries, client.log, subCells)
    ensures PublishFlags(o.fields, {})
    ensures fresh(HandlersIn(o.fields))
  {
    subCells := [];
    if dec.subscriptions.Some? {
      var subs := dec.subscriptions.value;
      subCells := AttachSubscriptions(o, reg, client, subs);
      assert subs[..|subs|] == subs;
      forall n | HoldsHandler(o.fields, n)
        ensures !o.fields[n].h.canPublish
      {
        var j :| 0 <= j < |subCells| && subCells[j] == o.fields[n].h;
        assert SubscriptionHandler(subCells[j], subs[j]);
      }
      forall t | t in HandlersIn(o.fields) ensures t in Made(subCells) {
        var n :| n in o.fields && o.fields[n].Handler? && o.fields[n].h == t;
        var j :| 0 <= j < |subCells| && subCells[j] == t;
      }
    }
  }

  /**
   * `o.on_decorate()` with its `AttributeError` swallowed:
   * `TemperatureWatcher`'s points the `on_change` of the handler in
   * `TEMPERATURE` at `hooray`; a class without one, or a `TEMPERATURE`
   * that is missing or plain, raises `AttributeError` and changes nothing.
   */
  method RunOnDecorate(o: Instance)
    modifies HandlerAt(o.fields, "TEMPERATURE")`onChange
    ensures o.onDecorate == WatchTemperature && HoldsHandler(o.fields, "TEMPERATURE") ==>
              o.fields["TEMPERATURE"].h.onChange == Hooray(o)
    ensures o.onDecorate == NoOnDecorate ==> unchanged(HandlerAt(o.fields, "TEMPERATURE"))
  {
    if o.onDecorate == WatchTemperature && "TEMPERATURE" in o.fields && o.fields["TEMPERATURE"].Handler? {
      o.fields["TEMPERATURE"].h.onChange := Hooray(o);
    }
  }

  /**
   * `wrapper`, once the class's own constructor has run (so every field
   * is plain): the subscription loop, the publication loop, then
   * `on_decorate`. The only exception that escapes is the publication
   * loop's `TypeError`, and then `on_decorate` does not run. Every
   * handler the object ends with is new.
   */
  method Bind(dec: Decorator, o: Instance, reg: Subscribers, client: Client)
    returns (err: Option<Exception>, ghost mid: map<string, Field>, ghost subCells: seq<TopicHandler>,
             ghost pubCells: seq<TopicHandler>, ghost publishable: set<TopicHandler>)
    requires AllPlain(o.fields) && reg.Valid()
    modifies o`fields, client`log, reg`entries
    ensures reg.Valid()
    ensures SubPhase(dec, o, client.reply, old(o.fields), old(reg.entries), old(client.log),
                     mid, reg.entries, client.log, subCells)
    ensures PubPhase(dec, mid, o.fields, publishable, pubCells, err)
    ensures PublishFlags(o.fields, publishable)
    ensures err.Some? ==> err == Some(TypeError)
    ensures fresh(HandlersIn(o.fields))
    ensures err.None? && o.onDecorate == WatchTemperature && HoldsHandler(o.fields, "TEMPERATURE") ==>
              o.fields["TEMPERATURE"].h.onChange == Hooray(o)
  {
    ghost var f0, e0, log0 := o.fields, reg.entries, client.log;
    pubCells, publishable := [], {};
    subCells := BindSubscriptions(dec, o, reg, client);
    mid := o.fields;
    err := None;
    if dec.publications.Some? {
      var pubs := dec.publications.value;
      err, pubCells, publishable := AttachPublications(o, dec.subscriptions, pubs);
      assert pubs[..|pubs|] == pubs;
      if err.Some? && dec.subscriptions.Some? {
        var subs := dec.subscriptions.value;
        SubLoopAttachesAll(o, f0, e0, subs, subCells, client.reply, |log0|);
      }
    }
    if err.None? {
      RunOnDecorate(o);
    }
  }
}
