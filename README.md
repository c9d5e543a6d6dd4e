# MQTT topic binding and dispatch, modelled in Dafny

This project models the core of a small Python library that binds the
fields of decorated objects to MQTT topics. The library exists in two
versions, and both are modelled:

- the packaged `MQTT_Handler/MQTT.py` (module `MqttHandler`, file
  `mqtt_handler.dfy`);
- the earlier prototype `main.py` (module `Prototype`, file `prototype.dfy`).

A decorator (`Connect` / `MQTTConnect`) takes lists of subscriptions and
publications. When an object of the decorated class is built, the binder does
four things:

- It gives the object one binding cell (`Topic` / `TopicHandler`) per topic.
  The cell sits under a field name derived by replacing every `/` with `_`.
- It subscribes through the paho client.
- It records each subscription the broker accepted in a registry
  (`sub_dict` / `GLOBAL_SUBSCRIBERS`).
- It grants publish permission to the publication cells. A topic named in
  both lists shares one cell.

The decorator also intercepts field assignment:

- Assigning to a field that holds a cell becomes a permission-checked
  publish.
- The cell's value changes only when the publish returned 0.

An inbound message is dispatched through the registry
(`call_topic_handler` / `on_message`). Every cell registered for the message
topic gets the payload as its value, and then has its `on_change` hook run.

The model has these parts:

- **Python built-ins** the core relies on (module `Builtins`):
  - `str.replace("/", "_")`;
  - `str.isidentifier` on ASCII;
  - `float()` on decimal text, exactly, over the reals;
  - `str(int)`;
  - ordering of strings.
- **Dictionary assignment** with insertion order (module `Dict`).
- **The paho client** (module `Transport`): an oracle whose result code for
  the k-th call is fixed when it is built, and which logs every call it
  receives.

Objects are classes with a field map from names to a cell or a plain value.
Cells are classes whose methods update their fields in place. Registries are
classes holding a sequence of (key, topic) pairs. Each binder loop is a
`while` loop proved against a recursive specification function (`SubLoop`,
`PubLoop`), and the properties of those functions are proved as lemmas. The
clock is a parameter `now`.

The prototype also carries its demo class `TemperatureWatcher`, whose
`hooray` hook turns the `AIR_COND/SOUTH` output on or off from the
temperature.

In both versions, a decorator given publications but no subscriptions cannot
build an object: the publication loop tests `pub in o.subscriptions` while
`subscriptions` is `None`, which raises `TypeError`. The model keeps that
behaviour (`PubLoopWithoutSubscriptions`).

## Model

| member | source | states |
|---|---|---|
| Builtins.ReplaceSlash | MQTT_Handler/MQTT.py:184 | the result has the same length; each `/` becomes `_` and every other character is kept |
| Builtins.ReplaceSlashIdempotent | MQTT_Handler/MQTT.py:184 | the result holds no `/`, so replacing again changes nothing |
| Builtins.ReplaceSlashFixesSlashFree | main.py:293 | a topic without `/` is its own field name |
| Builtins.ReplaceSlashConcat | MQTT_Handler/MQTT.py:184 | the replacement distributes over concatenation |
| Builtins.ReplaceSlashJoin | MQTT_Handler/MQTT.py:184 | a two-level topic `a/b` whose levels hold no `/` becomes `a_b` |
| Builtins.ReplaceSlashExample | main.py:338-342 | `AIR_COND/SOUTH` derives the field `AIR_COND_SOUTH` |
| Builtins.UnsignedIsNumeral | main.py:99-104 | an unsigned numeral that parses consists of digits and points only |
| Builtins.ParseFloat | MQTT_Handler/MQTT.py:82 | the modelled `float()`: accepted text is non-empty; a leading `-` gives a number at most 0, any other accepted text one at least 0 |
| Builtins.ParsedTextIsNumeral | main.py:99-104 | text the modelled decimal subset of `float()` accepts consists of signs, digits and points only |
| Builtins.NonNumeralTextDoesNotParse | MQTT_Handler/MQTT.py:80-84 | the modelled decimal subset of `float()` rejects text holding any other character |
| Builtins.IntTextParses | MQTT_Handler/MQTT.py:80-84 | `float(str(i))` is `i` for every integer `i` |
| Builtins.LexTrichotomy | main.py:138-154 | for two strings exactly one of less, equal and greater holds |
| Builtins.LexTransitive | main.py:141-142 | string less-than is transitive |
| Dict.Assign | MQTT_Handler/MQTT.py:121 | `d[k] = v` replaces the value of an existing key in place and appends a new key; no other entry changes |
| Dict.AssignLookup | main.py:32 | after `d[k] = v`, looking up `k` yields `v` and every other key keeps its value |
| Transport.Client.constructor | MQTT_Handler/MQTT.py:232 | a client starts with an empty call log and its fixed replies |
| Transport.Client.Subscribe | MQTT_Handler/MQTT.py:232 | a subscribe appends one call to the log and returns the reply for that call |
| Transport.Client.Publish | MQTT_Handler/MQTT.py:99 | a publish appends one call with the given topic, payload, qos and retain, and returns the reply for that call |
| Transport.SubscribeCalls | main.py:288-290 | the log of a subscription loop holds exactly one subscribe per topic, in order |
| MqttHandler.SafeFloat | MQTT_Handler/MQTT.py:79-84 | a number comes back exactly when the value is an integer or text the modelled `float()` accepts; otherwise the value comes back unchanged |
| MqttHandler.SafeFloatIntText | MQTT_Handler/MQTT.py:79-84 | an integer and its decimal text coerce to the same number |
| MqttHandler.SafeFloatKeepsNonNumeral | MQTT_Handler/MQTT.py:83-84 | text holding a character outside the modelled decimal subset of `float()` is returned unchanged |
| MqttHandler.SafeFloatExamples | MQTT_Handler/MQTT.py:79-84 | `"12.5"` gives 12.5, `"6"` and `"6.0"` give 6.0, `"ON"` stays text |
| MqttHandler.Topic.constructor | MQTT_Handler/MQTT.py:11-23 | a new cell holds `NO_MESSAGE_RECEIVED`, both flags false and both times 0.0 |
| MqttHandler.Topic.Publish | MQTT_Handler/MQTT.py:95-103 | without permission nothing is sent and `None` comes back; with it one publish with the given payload, qos and retain is logged and its result returned |
| MqttHandler.Topic.SetValue | MQTT_Handler/MQTT.py:69-73 | publishes with the defaults qos 0 and no retain; value and publish time change exactly when the publish returned 0; otherwise only the log may grow |
| MqttHandler.Topic.CalledFromOnMessage | MQTT_Handler/MQTT.py:86-88 | `on_change` runs once, then the message time is the current time |
| MqttHandler.SubDict.constructor | MQTT_Handler/MQTT.py:147-175 | a registry starts empty, with distinct keys |
| MqttHandler.NoteSubscribers | MQTT_Handler/MQTT.py:106-122 | the cell maps to the topic afterwards and every other cell keeps its topic |
| MqttHandler.CallTopicHandler | MQTT_Handler/MQTT.py:125-142 | every cell registered for the message topic holds the payload, ran `on_change` once more and has the message time; every other cell is untouched |
| MqttHandler.VarName | MQTT_Handler/MQTT.py:181-185 | succeeds exactly when the slash-replaced name is an identifier, with each `/` replaced; otherwise `AssertionError` |
| MqttHandler.VarNameExample | MQTT_Handler/MQTT.py:181-185 | `AIR_COND/SOUTH` yields `AIR_COND_SOUTH` |
| MqttHandler.AirCondSouthIsIdentifier | MQTT_Handler/MQTT.py:184 | `AIR_COND_SOUTH` is an identifier |
| MqttHandler.VarNameIdempotent | MQTT_Handler/MQTT.py:181-185 | a derived name derives itself |
| MqttHandler.VarNameCollision | MQTT_Handler/MQTT.py:184 | `a/b` and `a_b` derive the same field name |
| MqttHandler.VarNameRejects | MQTT_Handler/MQTT.py:184 | the empty topic and topics starting with a digit fail the assertion |
| MqttHandler.Texts | MQTT_Handler/MQTT.py:196-199 | a list of strings is kept element by element |
| MqttHandler.CheckPubSubArg | MQTT_Handler/MQTT.py:187-200 | `None` stays `None`; a lone string becomes a one-element list; a list is kept exactly when all its items are strings, else `AssertionError`; a non-iterable raises `TypeError` |
| MqttHandler.NewConnect | MQTT_Handler/MQTT.py:146-179 | the decorator is built exactly when both arguments pass the check, subscriptions first |
| MqttHandler.Instance.constructor | MQTT_Handler/MQTT.py:222 | a new object holds its constructor fields as plain values |
| MqttHandler.SetField | MQTT_Handler/MQTT.py:210-216 | a field holding a cell keeps that cell and routes the value through its guarded setter; any other assignment changes only that field |
| MqttHandler.Attach | MQTT_Handler/MQTT.py:230 | attaching a cell under a free or plain name sets the field; under a cell it goes through that cell's setter and leaves the field as it was |
| MqttHandler.FirstBad | MQTT_Handler/MQTT.py:226-230 | the index of the first topic whose field name fails the check, or the list length |
| MqttHandler.AttachField | MQTT_Handler/MQTT.py:210-216 | after attaching, the name holds a cell; an existing cell is kept, otherwise the new one is stored |
| MqttHandler.Register | MQTT_Handler/MQTT.py:234-239 | a successful subscription is assigned into the registry; a failed one leaves it as it was |
| MqttHandler.SubStepEffect | MQTT_Handler/MQTT.py:226-240 | one pass of the subscription loop: the derived name keeps its cell or takes the new one; the registry gains the cell in that field, with at most one new entry, exactly when the subscribe succeeded, and is unchanged otherwise |
| MqttHandler.SubLoopGrows | MQTT_Handler/MQTT.py:225-240 | the subscription loop removes no field and no registry key, and adds at most one registry entry per subscription |
| MqttHandler.SubLoopAttachesAll | MQTT_Handler/MQTT.py:225-230 | after the subscription loop every derived name holds a cell, whatever the broker replied |
| MqttHandler.SubLoopLeavesOtherNames | MQTT_Handler/MQTT.py:225-230 | names no subscription derives hold no cell afterwards |
| MqttHandler.SubLoopAttachesOwnCell | MQTT_Handler/MQTT.py:227-230 | with distinct derived names, each subscription's own new cell sits under its name |
| MqttHandler.SubLoopRegistersSuccesses | MQTT_Handler/MQTT.py:232-240 | each subscription's cell is registered under its topic exactly when its subscribe returned success; every earlier entry is kept |
| MqttHandler.PubStep | MQTT_Handler/MQTT.py:243-250 | one publication keeps every existing cell and leaves a cell under its name; that cell becomes publishable when the publication is a subscription or the name held no cell, while a name already holding a non-publishing cell keeps it unchanged and the new cell is dropped |
| MqttHandler.PubLoop | MQTT_Handler/MQTT.py:242-250 | the publication loop only grows the publishable set and never replaces a cell |
| MqttHandler.PubLoopNewCellsFromList | MQTT_Handler/MQTT.py:246-250 | every cell the publication loop attaches under a new name is one of its new cells, and every publishable cell was publishable before, already attached, or new |
| MqttHandler.PubLoopWithoutSubscriptions | MQTT_Handler/MQTT.py:242-244 | with no subscriptions, any publication raises `TypeError` |
| MqttHandler.PubLoopPublishesAll | MQTT_Handler/MQTT.py:242-250 | after the loop every publication's name holds a cell; that cell may publish when the publication is also a subscription or its name held no cell before the loop |
| MqttHandler.PubLoopSharesSubscribedCell | MQTT_Handler/MQTT.py:244-245 | a publication that is also a subscription reuses the subscribed cell, which becomes publishable |
| MqttHandler.PubLoopSharedNameGetsNoPermission | MQTT_Handler/MQTT.py:243-250 | a cell without permission that is not one of the loop's new cells and sits under no shared publication's name is still without permission after the loop, so a publication outside the subscriptions whose name already holds such a cell grants it nothing |
| MqttHandler.PubLoopSlashTwinExample | MQTT_Handler/MQTT.py:246-250 | example: publication `A/B` beside subscription `A_B` leaves the fields and permissions exactly as they were |
| MqttHandler.PubLoopLeavesOtherNames | MQTT_Handler/MQTT.py:242-250 | names no publication derives gain no cell |
| MqttHandler.PubLoopAttachesNewCell | MQTT_Handler/MQTT.py:246-250 | a publication that is not a subscription gets its own new cell under a free name |
| MqttHandler.SubscribeOne | MQTT_Handler/MQTT.py:226-240 | one turn of the subscription loop: a fresh subscribed cell, one subscribe logged, the field attached and the registry updated only on success |
| MqttHandler.AttachAndSubscribe | MQTT_Handler/MQTT.py:230-240 | attaching then subscribing gives the attached fields, one subscribe logged and the registry updated only on success |
| MqttHandler.SubscribeStep | MQTT_Handler/MQTT.py:226-240 | one loop turn advances the loop state to match `SubLoop` one topic further |
| MqttHandler.AttachSubscriptions | MQTT_Handler/MQTT.py:225-240 | the loop stops at the first topic whose name fails with `AssertionError`; the fields, registry and log before it are as `SubLoop` says |
| MqttHandler.SubscribedCellsCannotPublish | MQTT_Handler/MQTT.py:17 | after the subscription loop no cell of the object may publish |
| MqttHandler.PublishOne | MQTT_Handler/MQTT.py:243-250 | one turn of the publication loop agrees with `PubStep`, and its error leaves the fields unchanged |
| MqttHandler.PublishStep | MQTT_Handler/MQTT.py:243-250 | one loop turn advances the loop state to match `PubLoop` one publication further |
| MqttHandler.AttachPublications | MQTT_Handler/MQTT.py:242-250 | the loop's fields and permissions match `PubLoop` on the publications done, and its error is the one `PubLoop` raises next |
| MqttHandler.BindSubscriptions | MQTT_Handler/MQTT.py:225-240 | the subscription phase as `SubLoop` describes, failing with `AssertionError` at an invalid name, and leaving no publishable cell |
| MqttHandler.BindPublications | MQTT_Handler/MQTT.py:242-250 | the publication phase as `PubLoop` describes when there are publications, with new cells outside the earlier ones; nothing changes when there are none |
| MqttHandler.Bind | MQTT_Handler/MQTT.py:221-258 | the full wrapper: subscriptions, then publications, then `on_decorate` once when it exists and nothing failed |
| Prototype.FloatCmp | main.py:138-154 | a numeric value compared with text raises `TypeError` for ordering operators only |
| Prototype.IsFloat | main.py:99-104 | an integer is a float (overflow not modelled); accepted text holds only signs, digits and points |
| Prototype.Compare | main.py:138-154 | for integers within the double range, comparisons raise only `TypeError`, only for a numeric value against text; `==` and `!=` never raise |
| Prototype.CompareNeNegatesEq | main.py:138-154 | `!=` is the negation of `==` |
| Prototype.CompareTextIsTotalOrder | main.py:141-151 | a non-numeric value compares to `str(other)` as a total order on strings |
| Prototype.CompareEqInt | main.py:138-139 | equality with an integer is numeric for numeric text and textual otherwise |
| Prototype.CompareIntTextEqual | main.py:138-139 | the text of an integer equals that integer |
| Prototype.CompareNotSetAboveNumber | main.py:112-148 | an unset handler's `not set` is greater than 72, as strings |
| Prototype.CompareFractionAbove | main.py:147-148 | `"75.5" > 72` holds numerically |
| Prototype.CompareWholeBelow | main.py:147-148 | `"60" > 72` is false numerically |
| Prototype.CompareNumberAgainstText | main.py:141-142 | numeric text ordered against text raises `TypeError` |
| Prototype.PlainCmp | main.py:356 | ordering two plain values raises exactly when one is an integer and the other text |
| Prototype.TopicHandler.constructor | main.py:111-122 | a new handler holds `not set`, both flags false, both times 0.0 and the printing hook |
| Prototype.TopicHandler.Publish | main.py:193-201 | without permission nothing is sent and `None` comes back; with it one publish with the given payload, qos and retain is logged and its result returned |
| Prototype.TopicHandler.SetValue | main.py:172-176 | publishes with the defaults qos 0 and no retain; value and publish time change exactly when the publish returned 0 |
| Prototype.Instance.constructor | main.py:346-347 | a new object holds its constructor fields as plain values |
| Prototype.SetField | main.py:270-278 | a field holding a handler keeps that handler and routes the value through its guarded setter; any other assignment changes only that field |
| Prototype.Subscribers.constructor | main.py:8 | the registry starts empty |
| Prototype.NoteSubscribers | main.py:11-33 | the object is assigned the topic only when it has a field named exactly the topic; a second registration replaces the first; other objects keep theirs |
| Prototype.NewTemperatureWatcher | main.py:346-347 | a new watcher holds only `hold_temp` and installs the `hooray` hook on decoration |
| Prototype.HoorayCommand | main.py:354-361 | the command is `ON` or `OFF`; `AttributeError` only for a missing `TEMPERATURE` or `hold_temp`; `TypeError` when the printed handler's `__str__` returns an integer; a non-numeric temperature is compared with `str(hold_temp)` as text |
| Prototype.RunHooray | main.py:354-361 | an error leaves fields and log unchanged; otherwise the command is assigned to `AIR_COND_SOUTH` through the intercepted setter |
| Prototype.CalledFromOnMessage | main.py:182-185 | the hook runs once, then the message time is set; the printing hook changes nothing else |
| Prototype.EntryFault | main.py:53 | a registry entry raises nothing exactly when its object holds a handler under the topic |
| Prototype.FirstFault | main.py:50-53 | the first entry for the topic whose object holds no handler there |
| Prototype.AfterHits | main.py:53-57 | after n deliveries a handler holds the payload and the message time, and ran its hook n more times |
| Prototype.DeliverTo | main.py:53-61 | one delivery: the payload is stored, the hook runs, an `AttributeError` from it is caught; only `TypeError` escapes |
| Prototype.DeliverQuietly | main.py:53-61 | delivery to an entry whose handler runs the printing hook raises nothing and advances the dispatch state by one entry |
| Prototype.DeliverWithHook | main.py:53-61 | delivery to an entry whose handler runs `hooray` raises at most `TypeError`, and advances the dispatch state only when nothing was raised |
| Prototype.DeliverStep | main.py:50-61 | one turn of the loop keeps the dispatch state, and a quiet failure is the entry's own fault |
| Prototype.Walk | main.py:50-61 | the loop stops at the first raising entry, or at the end when none raises |
| Prototype.WalkOutcome | main.py:50-61 | with no error every entry for the topic held a handler; a quiet walk delivered to exactly the entries before the stop |
| Prototype.OnMessage | main.py:36-61 | dispatch never adds or removes a handler; under default hooks every handler for the topic holds the payload and ran `on_change` once per entry, and nothing else changes |
| Prototype.CheckTopics | main.py:224-246 | `None` stays `None`; a lone string becomes a one-element list; other iterables are kept; a non-iterable raises `UserWarning` |
| Prototype.NewDecorator | main.py:204-246 | the decorator is built exactly when both arguments are iterable |
| Prototype.TemperatureWatcherDecorator | main.py:338 | the watcher subscribes to `TEMPERATURE` and publishes `TEMPERATURE` and `AIR_COND/SOUTH` |
| Prototype.AttachField | main.py:270-280 | after attaching, the name holds a handler; an existing handler is kept, otherwise the new one is stored |
| Prototype.Note | main.py:305-310 | a successful subscription is noted only when the object has a field named exactly the raw topic |
| Prototype.SubStepEffect | main.py:288-310 | one pass of the subscription loop: the derived name keeps its handler or takes the new one, and the registry changes only on success when the raw topic names a field, adding at most the object as a key |
| Prototype.SubLoopGrows | main.py:287-310 | the subscription loop removes no field, and the only registry key it can add is the object itself |
| Prototype.SubLoopAttachesAll | main.py:287-302 | after the loop every derived name holds a handler, whatever the broker replied |
| Prototype.SubLoopTouchesOnlyTheirNames | main.py:287-302 | fields no subscription derives are unchanged |
| Prototype.SubLoopKeepsNamesSlashFree | main.py:293 | the loop adds no field name containing `/` |
| Prototype.LastNoted | main.py:305-310 | the topic the object ends up registered under is a subscribed topic without `/` |
| Prototype.SubLoopNotesLastTopic | main.py:287-310 | the object ends up registered under the last accepted topic without `/`, or keeps its earlier entry; other objects are unchanged |
| Prototype.NotedUnderRawName | main.py:293 | the raw topic names a field after attaching exactly when it has no `/` |
| Prototype.SecondSubscriptionReplacesFirst | main.py:287-310 | two accepted topics leave the object registered under the second only |
| Prototype.SlashTopicIsNotRegistered | main.py:293-310 | an accepted `AIR_COND/SOUTH` subscription leaves the registry unchanged |
| Prototype.PubFault | main.py:316-317 | no subscriptions raises `TypeError`; a shared publication fails exactly when its field holds no handler |
| Prototype.PubStep | main.py:313-326 | one publication fails exactly when `PubFault` says so; otherwise it keeps every handler, and the handler under its name becomes publishable when the publication is a subscription or the name held no handler, while a name already holding a non-publishing handler keeps it unchanged and the new handler is dropped |
| Prototype.PubLoop | main.py:312-326 | the publication loop only grows the publishable set and never replaces a handler |
| Prototype.PubLoopWithoutSubscriptions | main.py:312-316 | with no subscriptions, any publication raises `TypeError` |
| Prototype.PubLoopRaisesOnlyTypeError | main.py:312-326 | after a completed subscription loop, the publication loop can only raise `TypeError` |
| Prototype.PubLoopPublishesAll | main.py:312-326 | after the loop every publication's name holds a handler; that handler may publish when the publication is also a subscription or its name held no handler before the loop |
| Prototype.OneSubscription | main.py:288-300 | one subscription under a free name adds exactly its handler |
| Prototype.SharedThenOwnPublication | main.py:316-326 | a shared publication reuses the subscribed handler and a new one gets a fresh handler |
| Prototype.TemperatureWatcherBinding | main.py:282-347 | binding a watcher gives `TEMPERATURE` one shared handler and `AIR_COND_SOUTH` its own, both publishable, and keeps `hold_temp` |
| Prototype.TemperatureWatcherNames | main.py:341-342 | the watcher's field names are `TEMPERATURE` and `AIR_COND_SOUTH` |
| Prototype.AttachHandler | main.py:300 | a free or plain name gets the handler; an existing handler routes it through its setter and keeps the field |
| Prototype.SubscribeOne | main.py:288-310 | one turn of the subscription loop: one subscribe logged, a fresh subscribed handler attached, the object noted only on success |
| Prototype.AttachAndNote | main.py:300-310 | attaching then noting gives the attached fields and the noted registry |
| Prototype.SubscribeStep | main.py:288-310 | one loop turn advances the loop state to match `SubLoop` one topic further |
| Prototype.AttachSubscriptions | main.py:287-310 | the loop's fields, registry and log are as `SubLoop` says, with fresh handlers |
| Prototype.PublishOne | main.py:313-326 | one turn of the publication loop fails exactly as `PubFault` says and otherwise agrees with `PubStep` |
| Prototype.PublishStep | main.py:313-326 | one loop turn advances the loop state to match `PubLoop` one publication further |
| Prototype.AttachPublications | main.py:312-326 | the loop agrees with `PubLoop` on the publications done, and its error is `PubFault` of the next one |
| Prototype.BindSubscriptions | main.py:287-310 | the subscription phase as `SubLoop` describes, leaving no publishable handler |
| Prototype.RunOnDecorate | main.py:328-352 | the watcher's `on_decorate` sets the `TEMPERATURE` hook to `hooray`; an object without the hook is unchanged |
| Prototype.Bind | main.py:282-335 | the full wrapper: subscriptions, then publications failing only with `TypeError`, then the hook installed when nothing failed |

## Left out

- The paho client's network side, connection and `loop_start` thread are not modelled. The client is an oracle of result codes with a call log, and each dispatch is one sequential step. `MQTT_Handler/BasicClientStart.py` and `start_client` are not part of this model.
- The module-level demo at the end of `main.py` (global client start and sleep loop) is not modelled.
- Registry keys are object identities. The custom `__hash__`/`__eq__` that Python's dict would use is not modelled, and neither are the `Topic`/`TopicHandler` hash functions.
- MqttHandler.NoteSubscribers: keys are compared by identity. In `MQTT.py` a `Topic` hashes its class name, topic and client (lines 58-60) and compares by its coerced value, so two instances of one decorated class subscribed to the same topic have cells that are equal keys while both hold `NO_MESSAGE_RECEIVED`. There the second `sub_dict[t] = topic` only rewrites the first instance's entry, and the second instance is never registered; the model registers both.
- MqttHandler.SubLoopRegistersSuccesses: stated over identity keys, so it does not capture the lost registration of a second instance described above.
- MqttHandler.CallTopicHandler: stated over identity keys, so a second instance of the same class subscribed to the same topic is dispatched to in the model but not in `MQTT.py`.
- `float()` is modelled on a decimal subset (optional sign, digits, at most one point) as an exact real. Exponents, `inf`, `nan`, surrounding whitespace, digit-grouping underscores (`1_000`), non-ASCII digits and binary rounding are not modelled, nor is the `OverflowError` that `float(i)` raises for an integer beyond the double range.
- MqttHandler.SafeFloat: an integer beyond the double range (such as `10**400`) makes `float()` raise `OverflowError`, which the `except ValueError` at `MQTT_Handler/MQTT.py` line 83 does not catch; the model coerces every integer to a number instead.
- MqttHandler.SafeFloatIntText: holds for integers within the double range only; beyond it `_safe_float` raises an uncaught `OverflowError` for the integer, while the model coerces it.
- Prototype.IsFloat: an integer beyond the double range makes `is_float` raise an uncaught `OverflowError` (`main.py` lines 99-104 catch only `ValueError`); the model answers true for every integer.
- Prototype.Compare: a handler holding an integer beyond the double range raises `OverflowError` from `is_float` in every comparison (`main.py` lines 138-154); the model returns a result there, so its promise that comparisons raise only `TypeError` holds for integers within the double range only.
- Prototype.CompareNeNegatesEq: its statement that both `==` and `!=` succeed holds for integers within the double range only, for the same uncaught `OverflowError`.
- Builtins.ParsedTextIsNumeral: holds of the modelled decimal subset only. Python's `float()` also accepts `inf`, `nan`, `1e3`, ` 7`, `1_000` and non-ASCII digits.
- Builtins.NonNumeralTextDoesNotParse: holds of the modelled decimal subset only. Python's `float()` accepts some text with letters, spaces or underscores, such as `inf`, `1e3`, ` 7` and `1_000`.
- MqttHandler.SafeFloatKeepsNonNumeral: holds of the modelled decimal subset only. `_safe_float` turns `inf`, `1e3` or `1_000` into a float, where the model returns the text.
- Values are `str` or `int` only (`Builtins.Value`). Float, `None` and bytes values are not modelled: a float reading assigned to a bound field, the default `payload=None` of `publish` (`MQTT.py` line 95, `main.py` line 193), and the `TypeError` that a float-returning `__str__` causes in `hooray`'s f-string.
- `str.isidentifier` is modelled on ASCII letters, digits and `_`.
- Clock readings are a parameter `now`.
- `print`, `warn` and the `__str__`/`__repr__` texts are not modelled, nor is the `_parent` field, which only feeds them.
- The UTF-8 decoding of payloads is not modelled: payloads are strings.
- Decorator metaprogramming is not modelled: rebinding `__setattr__`, `better_str` and `better_repr`. Assignment goes through the explicit `SetField`, and `on_decorate` is a flag (`MQTT.py`) or a hook kind (`main.py`).
- MqttHandler.Topic.CalledFromOnMessage: a user-defined `on_change` is not modelled. The default hook, which only warns, is a call counter.
- Prototype.CalledFromOnMessage: the only user hook modelled is `TemperatureWatcher.hooray`.
- Prototype.OnMessage: the exact outcome is stated only when every reached handler runs the default printing hook. With `hooray` hooks it states only that no handler is added or removed and which exceptions can escape.
- Prototype.HoorayCommand: a `hold_temp` that is itself a handler is modelled as `TypeError`. The reflected comparison Python would try is not modelled.
- Prototype.CheckTopics: the elements of a topic list are taken to be strings. The prototype never checks them, and a non-string element is outside the model.
- The comparison operators of `MQTT.py`'s `Topic` (lines 39-56) are not modelled beyond `_safe_float`. Python's mixed-type ordering is out of scope.
- Paho's own `ValueError` for an invalid topic string is not modelled.
- The `TypeError` paho would raise when a cell is routed through another cell's setter as a payload is modelled as that error. No payload of cell type exists.
- MqttHandler.Bind and Prototype.Bind require that the new object holds only plain values before binding, as a freshly built object of the decorated class does.
- MqttHandler.Bind: the object's fields are kept apart from its `subscriptions`, `publications` and `on_decorate` attributes, which Python holds in one namespace. A topic whose derived name is one of those three is not modelled: in `MQTT.py` it makes `pub in o.subscriptions` or `o.on_decorate()` raise `TypeError`.
- Prototype.Bind: the same separation of fields from `subscriptions`, `publications` and `on_decorate`; a topic deriving one of those names makes `main.py` raise `TypeError`, which the model does not.
- MqttHandler.AttachSubscriptions: the assertion in `_var_name` ends the whole wrapper at the first bad topic, as the code does. It does not skip that one topic.

## Findings

| source | as written | input that shows it | evidently intended | confidence | as-written member | corrected member |
|---|---|---|---|---|---|---|
| main.py:287-310 | the registry is keyed by the object, so an object subscribed to two topics is registered only under the last one accepted | subscriptions `["A", "B"]`, both accepted: the registry holds only `(o, "B")` | every accepted subscription is registered and receives its messages | not executed | Prototype.SecondSubscriptionReplacesFirst | MqttHandler.SubLoopRegistersSuccesses |
| main.py:293-310 | `note_subscribers` looks up the raw topic as a field name, but the handler sits under the slash-replaced name, so a topic containing `/` is never registered | subscription `"AIR_COND/SOUTH"`, accepted: the registry is unchanged | an accepted subscription is registered whatever characters its topic holds | not executed | Prototype.SlashTopicIsNotRegistered | MqttHandler.SubLoopRegistersSuccesses |
