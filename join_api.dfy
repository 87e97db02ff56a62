/**
 * The request-building and listing logic of the Join plugin for the
 * Keypirinha launcher, as values: the URLs sent to the Join push API, the
 * notification payload, the query fragment each action sends, the catalog
 * and suggestion items, and the device list merged from the API's answer
 * and the configured device groups.
 */
module JoinApi {
  import opened Wrappers
  import PyStr
  import UrlQuote

  const ApiAccessPoint: string := "https://joinjoaomgcd.appspot.com/_ah/api/"
  const PushEndpoint: string := ApiAccessPoint + "messaging/v1/sendPush?"
  const ListEndpoint: string := ApiAccessPoint + "registration/v1/listDevices?apikey="

  const SectionMain: string := "main"
  const SectionNotif: string := "android notifications"

  /** Only the plugin's own category is told apart from all others. */
  datatype Category = ItemJoin | OtherCategory

  /** A launcher item, reduced to what the plugin reads back. */
  datatype Item = Item(category: Category, itemLabel: string, target: string)

  /** One record of the `listDevices` answer, or a configured device group. */
  datatype Device = Device(deviceId: string, deviceName: string)

  /** The decoded answer to `listDevices`; `records` may be missing. */
  datatype Envelope = Envelope(records: Option<seq<Device>>)

  /** The `[android notifications]` section of the configuration. */
  datatype Notification = Notification(title: string, icon: string, smallicon: string,
                                       priority: string, sound: string)

  /** The configuration store: (section, key) to value. */
  type Settings = map<(string, string), string>

  /** `settings.get(key, section=section, fallback=fallback)`. */
  function Setting(settings: Settings, section: string, key: string, fallback: string): (value: string)
    ensures (section, key) in settings ==> value == settings[(section, key)]
    ensures (section, key) !in settings ==> value == fallback
  {
    if (section, key) in settings then settings[(section, key)] else fallback
  }

  /** `[x.strip() for x in parts]`, written as the loop appends them. */
  function StripEach(parts: seq<string>): seq<string> {
    if parts == [] then [] else StripEach(parts[..|parts| - 1]) + [PyStr.Strip(parts[|parts| - 1])]
  }

  /** Stripping each entry keeps the entries' number and order. */
  lemma {:induction false} StripEachSpec(parts: seq<string>)
    ensures |StripEach(parts)| == |parts|
    ensures forall i :: 0 <= i < |parts| ==> StripEach(parts)[i] == PyStr.Strip(parts[i])
    decreases |parts|
  {
    if parts != [] {
      var init := parts[..|parts| - 1];
      StripEachSpec(init);
      forall i | 0 <= i < |parts| ensures StripEach(parts)[i] == PyStr.Strip(parts[i]) {
        if i < |init| {
          assert parts[i] == init[i];
        }
      }
    }
  }

  /** `_uri_encode`: never carries a `&`, and percent-decoding it gives back the UTF-8 bytes of `s`. */
  function Enc(s: string): (r: string)
    ensures NoAmp(r)
    ensures UrlQuote.PercentDecode(r) == Some(UrlQuote.Utf8String(s))
  {
    UrlQuote.QuotePlusDecodes(s);
    UrlQuote.QuotePlus(s)
  }

  predicate NoAmp(s: string) {
    forall i :: 0 <= i < |s| ==> s[i] != '&'
  }

  // ---------------------------------------------------------------------
  // Request URLs (_build_request)

  /** Python truthiness of the `message` argument: neither `None` nor `""`. */
  predicate Truthy(message: Option<string>) {
    message.Some? && message.value != []
  }

  /**
   * The URL `_build_request(message)` hands to the transport: the push
   * form, ending in the device id and the API key, when `message` is
   * truthy; the device listing otherwise.
   */
  function RequestUrl(message: Option<string>, deviceId: string, apiKey: string): (url: string)
    ensures Truthy(message) ==>
              && PushEndpoint + message.value <= url
              && var tail := "&deviceId=" + deviceId + "&apikey=" + apiKey;
                 |tail| <= |url| && url[|url| - |tail|..] == tail
    ensures !Truthy(message) ==> url == ListEndpoint + apiKey
  {
    if Truthy(message) then
      var url := PushEndpoint + message.value + "&deviceId=" + deviceId + "&apikey=" + apiKey;
      assert url == (PushEndpoint + message.value) + ("&deviceId=" + deviceId + "&apikey=" + apiKey);
      url
    else
      ListEndpoint + apiKey
  }

  /**
   * The query of a push URL splits at `&` into the message's own
   * parameters followed by `deviceId` and `apikey`, provided neither of
   * those two values carries a `&` of its own.
   */
  lemma PushQuery(message: string, deviceId: string, apiKey: string)
    requires message != [] && NoAmp(deviceId) && NoAmp(apiKey)
    ensures var url := RequestUrl(Some(message), deviceId, apiKey);
            |PushEndpoint| <= |url|
            && PyStr.Split(url[|PushEndpoint|..], '&')
               == PyStr.Split(message, '&') + ["deviceId=" + deviceId, "apikey=" + apiKey]
  {
    var url := RequestUrl(Some(message), deviceId, apiKey);
    var q1 := message + "&deviceId=" + deviceId;
    PushQueryString(PushEndpoint, message, deviceId, apiKey);
    ParamKeys();
    SplitField(message, "&deviceId=", deviceId);
    SplitField(q1, "&apikey=", apiKey);
    assert PyStr.Split(message, '&') + ["deviceId=" + deviceId] + ["apikey=" + apiKey]
        == PyStr.Split(message, '&') + ["deviceId=" + deviceId, "apikey=" + apiKey];
  }

  /** The query string of a push URL is what follows the endpoint. */
  lemma PushQueryString(endpoint: string, message: string, deviceId: string, apiKey: string)
    ensures var url := endpoint + message + "&deviceId=" + deviceId + "&apikey=" + apiKey;
            |endpoint| <= |url|
            && url[|endpoint|..] == message + "&deviceId=" + deviceId + "&apikey=" + apiKey
  {
  }

  /** `&name=`, where the name holds no `&`. */
  predicate ParamKey(key: string) {
    key != [] && key[0] == '&' && NoAmp(key[1..])
  }

  /** The parameter keys the plugin appends to a query. */
  lemma ParamKeys()
    ensures ParamKey("&deviceId=") && "&deviceId="[1..] == "deviceId="
    ensures ParamKey("&apikey=") && "&apikey="[1..] == "apikey="
    ensures ParamKey("&text=") && "&text="[1..] == "text="
    ensures ParamKey("&icon=") && "&icon="[1..] == "icon="
    ensures ParamKey("&smallicon=") && "&smallicon="[1..] == "smallicon="
    ensures ParamKey("&priority=") && "&priority="[1..] == "priority="
    ensures ParamKey("&sound=") && "&sound="[1..] == "sound="
  {
  }

  /** Appending `&key=` and a value to a query appends one parameter. */
  lemma SplitField(query: string, key: string, value: string)
    requires ParamKey(key) && NoAmp(value)
    ensures PyStr.Split(query + key + value, '&') == PyStr.Split(query, '&') + [key[1..] + value]
  {
    assert query + key + value == query + ['&'] + (key[1..] + value);
    PyStr.SplitAppend(query, '&', key[1..] + value);
    PyStr.SplitWhole(key[1..] + value, '&');
  }

  // ---------------------------------------------------------------------
  // Notification payload (_send_notification)

  /**
   * The query fragment of a notification carrying `text`. Its parameters
   * come in a fixed order; only the title and the text are encoded, the
   * other four are passed through as configured (and stay separate
   * parameters as long as they hold no `&`).
   */
  function NotificationPayload(n: Notification, text: string): (payload: string)
    ensures NoAmp(n.icon) && NoAmp(n.smallicon) && NoAmp(n.priority) && NoAmp(n.sound) ==>
              PyStr.Split(payload, '&')
              == ["title=" + Enc(n.title), "text=" + Enc(text), "icon=" + n.icon,
                  "smallicon=" + n.smallicon, "priority=" + n.priority, "sound=" + n.sound]
  {
    var payload := "title=" + Enc(n.title) + "&text=" + Enc(text) + "&icon=" + n.icon
                   + "&smallicon=" + n.smallicon + "&priority=" + n.priority + "&sound=" + n.sound;
    assert NoAmp(n.icon) && NoAmp(n.smallicon) && NoAmp(n.priority) && NoAmp(n.sound) ==>
             PyStr.Split(payload, '&')
             == ["title=" + Enc(n.title), "text=" + Enc(text), "icon=" + n.icon,
                 "smallicon=" + n.smallicon, "priority=" + n.priority, "sound=" + n.sound] by {
      if NoAmp(n.icon) && NoAmp(n.smallicon) && NoAmp(n.priority) && NoAmp(n.sound) {
        PayloadFields(Enc(n.title), Enc(text), n.icon, n.smallicon, n.priority, n.sound);
      }
    }
    payload
  }

  /** The six parameters of a payload whose values hold no `&`. */
  lemma PayloadFields(title: string, text: string, icon: string, smallicon: string, priority: string, sound: string)
    requires NoAmp(title) && NoAmp(text) && NoAmp(icon) && NoAmp(smallicon) && NoAmp(priority) && NoAmp(sound)
    ensures PyStr.Split("title=" + title + "&text=" + text + "&icon=" + icon + "&smallicon=" + smallicon
                        + "&priority=" + priority + "&sound=" + sound, '&')
            == ["title=" + title, "text=" + text, "icon=" + icon,
                "smallicon=" + smallicon, "priority=" + priority, "sound=" + sound]
  {
    var p1 := "title=" + title;
    var p2 := p1 + "&text=" + text;
    var p3 := p2 + "&icon=" + icon;
    var p4 := p3 + "&smallicon=" + smallicon;
    var p5 := p4 + "&priority=" + priority;
    PyStr.SplitWhole(p1, '&');
    ParamKeys();
    SplitField(p1, "&text=", text);
    SplitField(p2, "&icon=", icon);
    SplitField(p3, "&smallicon=", smallicon);
    SplitField(p4, "&priority=", priority);
    SplitField(p5, "&sound=", sound);
    assert [p1] + ["text=" + text] + ["icon=" + icon] + ["smallicon=" + smallicon] + ["priority=" + priority]
           + ["sound=" + sound]
        == [p1, "text=" + text, "icon=" + icon, "smallicon=" + smallicon, "priority=" + priority, "sound=" + sound];
  }

  // ---------------------------------------------------------------------
  // Action dispatch (on_execute)

  /**
   * The `&url=` / `&file=` rule: `https://` goes in front of an input
   * whose first four characters are not `http`.
   */
  function WithScheme(input: string): (r: string)
    ensures "http" <= r
    ensures r == input <==> "http" <= input
    ensures r != input ==> r == "https://" + input
  {
    PyStr.SlicePrefix(input, "http");
    if PyStr.Slice(input, 0, 4) != "http" then
      var r := "https://" + input;
      assert r[..4] == "http";
      assert |r| != |input|;
      r
    else input
  }

  /**
   * The language and the text `&say=` sends: a leading `!` takes
   * `input[1:3]` as the language and `input[4:]` as the text; otherwise the
   * configured language and the whole input.
   */
  function SpeakArgs(input: string, ttsLanguage: string): (args: (string, string))
    requires input != []
    ensures input[0] != '!' ==> args == (ttsLanguage, input)
    ensures input[0] == '!' ==> |args.0| <= 2 && |args.0| + |args.1| < |input|
  {
    if input[0] == '!' then (PyStr.Slice(input, 1, 3), PyStr.Slice(input, 4, |input|))
    else (ttsLanguage, input)
  }

  /** `!xx ` selects the language `xx` and sends the rest; the fourth character is dropped whatever it is. */
  lemma SpeakOverride(lang: string, sep: char, text: string, ttsLanguage: string)
    requires |lang| == 2
    ensures SpeakArgs("!" + lang + [sep] + text, ttsLanguage) == (lang, text)
  {
    var input := "!" + lang + [sep] + text;
    assert PyStr.Slice(input, 1, 3) == lang;
    assert PyStr.Slice(input, 4, |input|) == text;
  }

  /** An override shorter than `!xx ` sends an empty text and a truncated language. */
  lemma SpeakShortOverride(input: string, ttsLanguage: string)
    requires input != [] && input[0] == '!' && |input| <= 4
    ensures SpeakArgs(input, ttsLanguage) == (input[1..PyStr.Min(3, |input|)], "")
  {
  }

  lemma SpeakExample()
    ensures SpeakArgs("!fr Bonjour", "EN") == ("fr", "Bonjour")
  {
    assert "!fr Bonjour" == "!" + "fr" + [' '] + "Bonjour";
    SpeakOverride("fr", ' ', "Bonjour", "EN");
  }

  /**
   * The query fragment `&say=` sends: the configured language and the
   * whole input, or after a leading `!` the next two characters as the
   * language and everything after the fourth as the text.
   */
  function SpeakRequest(input: string, ttsLanguage: string): (r: string)
    requires input != []
    ensures input[0] != '!' ==> r == "&language=" + ttsLanguage + "&say=" + Enc(input)
    ensures input[0] == '!' && |input| >= 4 ==> r == "&language=" + input[1..3] + "&say=" + Enc(input[4..])
    ensures input[0] == '!' && |input| < 4 ==> r == "&language=" + input[1..] + "&say=" + Enc("")
  {
    var (lang, text) := SpeakArgs(input, ttsLanguage);
    assert input[0] == '!' && |input| >= 4 ==> lang == input[1..3] && text == input[4..] by {
      if input[0] == '!' && |input| >= 4 {
        assert input == "!" + input[1..3] + [input[3]] + input[4..];
        SpeakOverride(input[1..3], input[3], input[4..], ttsLanguage);
      }
    }
    assert input[0] == '!' && |input| < 4 ==> lang == input[1..] && text == "" by {
      if input[0] == '!' && |input| < 4 {
        SpeakShortOverride(input, ttsLanguage);
      }
    }
    "&language=" + lang + "&say=" + Enc(text)
  }

  /**
   * The override language is sent unencoded, so an input such as `!&x hi`
   * carries a `&` of its own into the query.
   */
  lemma SpeakRawLanguage(c: char, text: string, ttsLanguage: string)
    ensures SpeakRequest("!&" + [c] + " " + text, ttsLanguage) == "&language=&" + [c] + "&say=" + Enc(text)
  {
    var input := "!&" + [c] + " " + text;
    assert input[0] == '!' && |input| >= 4;
    assert input[1..3] == "&" + [c];
    assert input[4..] == text;
  }

  /** What executing a plugin item does. */
  datatype Outcome =
    | Sent(message: string, input: string)  // a push with this query fragment; `input` is the stored user input afterwards
    | Ignored                               // nothing sent, nothing changed
    | IndexError                            // Python raises IndexError: nothing sent, nothing changed

  /**
   * The branch `on_execute` takes for a plugin item with `target`, given
   * the stored user input: what it pushes and what it stores back.
   */
  function Dispatch(target: string, input: string, ttsLanguage: string, n: Notification,
                    clipboard: string): (d: Outcome)
    ensures d.Sent? ==> d.message != []
    ensures d.IndexError? <==> target == [] || (target == "&say=" && input == [])
    ensures d.Ignored? <==> target != [] && target[0] != '&'
                            && target != "send_notification" && target != "send_clipboard"
    ensures d.Sent? && d.input != input ==>
              (target == "&url=" || target == "&file=") && d.input == "https://" + input
  {
    if target == "send_notification" then Sent(NotificationPayload(n, input), input)
    else if target == "send_clipboard" then Sent("&clipboard=" + Enc(clipboard), input)
    else if target == "&url=" || target == "&file=" then
      var full := WithScheme(input);
      Sent(target + full, full)
    else if target == "&say=" then
      if input == [] then IndexError else Sent(SpeakRequest(input, ttsLanguage), input)
    else if target == [] then IndexError
    else if target[0] == '&' then Sent(target + Enc(input), input)
    else Ignored
  }

  /** `&url=` and `&file=` send the input with a scheme and unencoded, and store it back. */
  lemma DispatchUrl(target: string, input: string, ttsLanguage: string, n: Notification, clipboard: string)
    requires target == "&url=" || target == "&file="
    ensures var d := Dispatch(target, input, ttsLanguage, n, clipboard);
            d.Sent? && d.message == target + d.input && "http" <= d.input
            && (d.input == input <==> "http" <= input)
  {
  }

  /** Any other `&` target, `&find=true` included, gets the encoded input appended. */
  lemma DispatchOther(target: string, input: string, ttsLanguage: string, n: Notification, clipboard: string)
    requires target != [] && target[0] == '&'
    requires target != "&url=" && target != "&file=" && target != "&say="
    ensures Dispatch(target, input, ttsLanguage, n, clipboard) == Sent(target + Enc(input), input)
  {
  }

  // ---------------------------------------------------------------------
  // Catalog (on_catalog) and device selection (on_suggest)

  const ErrorTarget: string := "error"
  const DevicePrefix: string := "DID="

  /** The catalog item of one device. */
  function DeviceItem(d: Device): (item: Item)
    ensures item.category == ItemJoin && SelectsDevice(item.target)
  {
    PyStr.SlicePrefix(DevicePrefix + d.deviceId, DevicePrefix);
    Item(ItemJoin, "Join: " + d.deviceName, DevicePrefix + d.deviceId)
  }

  /** `target[:4] == "DID="`. */
  predicate SelectsDevice(target: string) {
    PyStr.Slice(target, 0, 4) == DevicePrefix
  }

  /**
   * `target.split('=')[1]`: the text between the first and the second `=`
   * (or the end) of a `DID=` target.
   */
  function SelectedDeviceId(target: string): (id: string)
    requires SelectsDevice(target)
    ensures forall i :: 0 <= i < |id| ==> id[i] != '='
    ensures DevicePrefix + id <= target
    ensures |target| == 4 + |id| || target[4 + |id|] == '='
  {
    PyStr.SlicePrefix(target, DevicePrefix);
    var rest := target[4..];
    assert target == "DID" + ['='] + rest;
    PyStr.SplitAround("DID", '=', rest);
    PyStr.SplitFirst(rest, '=');
    PyStr.SplitPieces(target, '=');
    var id := PyStr.Split(target, '=')[1];
    assert id == PyStr.Split(rest, '=')[0];
    assert (DevicePrefix + id)[4..] == id;
    id
  }

  /**
   * What `on_catalog` lists: with no devices, the single guidance item,
   * whose label tells a missing API key from an empty device list; with
   * devices, one item per device in the same order.
   */
  ghost predicate IsCatalog(catalog: seq<Item>, devices: seq<Device>, apiKey: string)
    ensures IsCatalog(catalog, devices, apiKey) ==> |catalog| == if devices == [] then 1 else |devices|
  {
    && (devices == [] && apiKey == [] ==> catalog == [Item(ItemJoin, "Join: API key missing", ErrorTarget)])
    && (devices == [] && apiKey != [] ==> catalog == [Item(ItemJoin, "Join: No registered devices", ErrorTarget)])
    && (devices != [] ==> |catalog| == |devices|
                          && forall i :: 0 <= i < |devices| ==> catalog[i] == DeviceItem(devices[i]))
  }

  /** Choosing a device's catalog item selects that device, if its id has no `=`. */
  lemma SelectDeviceItem(d: Device)
    requires forall i :: 0 <= i < |d.deviceId| ==> d.deviceId[i] != '='
    ensures SelectsDevice(DeviceItem(d).target)
    ensures SelectedDeviceId(DeviceItem(d).target) == d.deviceId
  {
    var target := DeviceItem(d).target;
    PyStr.SlicePrefix(target, DevicePrefix);
    var id := SelectedDeviceId(target);
    assert id <= d.deviceId by {
      assert target[4..] == d.deviceId;
      assert (DevicePrefix + id)[4..] == id;
    }
  }

  /** An id with `=` in it is cut at the first `=`. */
  lemma SelectTruncates()
    ensures SelectedDeviceId("DID=a=b") == "a"
  {
    assert SelectsDevice("DID=a=b") by {
      PyStr.SlicePrefix("DID=a=b", DevicePrefix);
    }
    var id := SelectedDeviceId("DID=a=b");
  }

  // ---------------------------------------------------------------------
  // Suggestions (_create_suggestions)

  /** A suggestion and the tag that disables it. */
  datatype Action = Action(tag: string, item: Item)

  /** The seven actions, in the order they are offered. */
  function Actions(input: string): (table: seq<Action>)
    ensures |table| == 7
  {
    [ Action("clipboard", Item(ItemJoin, "Sync computer clipboard to device", "send_clipboard")),
      Action("notification", Item(ItemJoin, "Send notification: " + input, "send_notification")),
      Action("download", Item(ItemJoin, "Download: " + input, "&file=")),
      Action("website", Item(ItemJoin, "Open URL: " + input, "&url=")),
      Action("find", Item(ItemJoin, "Find device", "&find=true")),
      Action("speak", Item(ItemJoin, "Speak: " + input, "&say=")),
      Action("app", Item(ItemJoin, "Open App: " + input, "&app=")) ]
  }

  /** The position of an action target in the fixed order (7 for any other target). */
  function Rank(target: string): nat {
    if target == "send_clipboard" then 0
    else if target == "send_notification" then 1
    else if target == "&file=" then 2
    else if target == "&url=" then 3
    else if target == "&find=true" then 4
    else if target == "&say=" then 5
    else if target == "&app=" then 6
    else 7
  }

  /** Each action's target has the action's own position as its rank. */
  lemma RankOfActions(input: string)
    ensures forall k :: 0 <= k < 7 ==> Rank(Actions(input)[k].item.target) == k
  {
    var t := Actions(input);
    assert Rank(t[0].item.target) == 0;
    assert Rank(t[1].item.target) == 1;
    assert Rank(t[2].item.target) == 2;
    assert Rank(t[3].item.target) == 3;
    assert Rank(t[4].item.target) == 4;
    assert Rank(t[5].item.target) == 5;
    assert Rank(t[6].item.target) == 6;
  }

  /** The item of an action, offered unless its tag is disabled. */
  function Offer(action: Action, disabled: seq<string>): seq<Item> {
    if action.tag !in disabled then [action.item] else []
  }

  /** The items of the actions whose tag is not disabled, in order. */
  function Enabled(actions: seq<Action>, disabled: seq<string>): (r: seq<Item>)
    ensures |r| <= |actions|
    ensures (forall a :: a in actions ==> a.tag !in disabled) ==> |r| == |actions|
  {
    if actions == [] then [] else Offer(actions[0], disabled) + Enabled(actions[1..], disabled)
  }

  /** The suggestion list for the disabled tags and the typed text. */
  function Suggestions(disabled: seq<string>, input: string): (r: seq<Item>)
    ensures |r| <= 7
    ensures (forall a :: a in Actions(input) ==> a.tag !in disabled) ==> |r| == 7
  {
    Enabled(Actions(input), disabled)
  }

  /**
   * With `disabled_actions` unset, the disabled list is `[""]`, which names
   * no action, so all seven suggestions are offered.
   */
  lemma UnsetDisabledOffersAll(input: string)
    ensures StripEach(PyStr.Split("", ',')) == [""]
    ensures |Suggestions(StripEach(PyStr.Split("", ',')), input)| == 7
  {
    assert StripEach([""]) == [PyStr.Strip("")];
    var t := Actions(input);
    forall a | a in t ensures a.tag !in [""] {
      assert a.tag != "";
    }
  }

  /**
   * Every suggestion is an action whose tag is not disabled, the
   * suggestions follow the fixed order without repetition, and every action
   * whose tag is not disabled is among them.
   */
  lemma SuggestionsSpec(disabled: seq<string>, input: string)
    ensures var r := Suggestions(disabled, input);
            var table := Actions(input);
            && (forall i :: 0 <= i < |r| ==>
                  var j := Rank(r[i].target);
                  j < 7 && r[i] == table[j].item && table[j].tag !in disabled)
            && (forall i, i' :: 0 <= i < i' < |r| ==> Rank(r[i].target) < Rank(r[i'].target))
            && (forall k :: 0 <= k < 7 && table[k].tag !in disabled ==> table[k].item in r)
  {
    var table := Actions(input);
    var r := Suggestions(disabled, input);
    RankOfActions(input);
    EnabledSound(table, disabled, 0);
    EnabledOrdered(table, disabled, 0);
    forall i | 0 <= i < |r|
      ensures var j := Rank(r[i].target);
              j < 7 && r[i] == table[j].item && table[j].tag !in disabled
    {
      assert OfferedFrom(r[i], table, disabled, 0);
    }
    forall k | 0 <= k < 7 && table[k].tag !in disabled
      ensures table[k].item in r
    {
      EnabledIncludes(table, disabled, k);
    }
  }

  /** `x` is the item of the action ranked `Rank(x.target)` in a run starting at rank `base`, and that action is not disabled. */
  ghost predicate OfferedFrom(x: Item, actions: seq<Action>, disabled: seq<string>, base: nat) {
    var j := Rank(x.target);
    base <= j < base + |actions| && x == actions[j - base].item && actions[j - base].tag !in disabled
  }

  /** A run of actions whose targets are ranked `base`, `base + 1`, ... */
  ghost predicate RankedFrom(actions: seq<Action>, base: nat) {
    forall k :: 0 <= k < |actions| ==> Rank(actions[k].item.target) == base + k
  }

  lemma RankedTail(actions: seq<Action>, base: nat)
    requires actions != [] && RankedFrom(actions, base)
    ensures RankedFrom(actions[1..], base + 1)
  {
    var rest := actions[1..];
    forall k | 0 <= k < |rest| ensures Rank(rest[k].item.target) == base + 1 + k {
      assert rest[k] == actions[k + 1];
    }
  }

  /**
   * Over a ranked run of actions, every enabled item comes from an action
   * of the run whose tag is not disabled.
   */
  lemma {:induction false} EnabledSound(actions: seq<Action>, disabled: seq<string>, base: nat)
    requires RankedFrom(actions, base)
    ensures forall x :: x in Enabled(actions, disabled) ==> OfferedFrom(x, actions, disabled, base)
    decreases |actions|
  {
    if actions != [] {
      var rest := actions[1..];
      RankedTail(actions, base);
      EnabledSound(rest, disabled, base + 1);
      forall x | x in Enabled(actions, disabled) ensures OfferedFrom(x, actions, disabled, base) {
        if x !in Offer(actions[0], disabled) {
          assert OfferedFrom(x, rest, disabled, base + 1);
          var j := Rank(x.target);
          assert rest[j - base - 1] == actions[j - base];
        }
      }
    }
  }

  /** Over a ranked run of actions, the enabled items keep the rank order. */
  lemma {:induction false} EnabledOrdered(actions: seq<Action>, disabled: seq<string>, base: nat)
    requires RankedFrom(actions, base)
    ensures forall i, i' :: 0 <= i < i' < |Enabled(actions, disabled)| ==>
              Rank(Enabled(actions, disabled)[i].target) < Rank(Enabled(actions, disabled)[i'].target)
    decreases |actions|
  {
    if actions != [] {
      var rest := actions[1..];
      RankedTail(actions, base);
      EnabledOrdered(rest, disabled, base + 1);
      EnabledSound(rest, disabled, base + 1);
      var r := Enabled(actions, disabled);
      var tail := Enabled(rest, disabled);
      var head := Offer(actions[0], disabled);
      assert r == head + tail;
      forall i, i' | 0 <= i < i' < |r| ensures Rank(r[i].target) < Rank(r[i'].target) {
        assert r[i'] == tail[i' - |head|];
        if i < |head| {
          assert OfferedFrom(tail[i' - |head|], rest, disabled, base + 1);
          assert Rank(r[i].target) == base;
        } else {
          assert r[i] == tail[i - |head|];
        }
      }
    }
  }

  lemma {:induction false} EnabledIncludes(actions: seq<Action>, disabled: seq<string>, k: nat)
    requires k < |actions| && actions[k].tag !in disabled
    ensures actions[k].item in Enabled(actions, disabled)
    decreases k
  {
    if k > 0 {
      assert actions[1..][k - 1] == actions[k];
      EnabledIncludes(actions[1..], disabled, k - 1);
    }
  }

  /** Appending an action to the run appends its offer to the enabled items. */
  lemma {:induction false} EnabledSnoc(actions: seq<Action>, action: Action, disabled: seq<string>)
    ensures Enabled(actions + [action], disabled) == Enabled(actions, disabled) + Offer(action, disabled)
    decreases |actions|
  {
    if actions == [] {
      assert ([] + [action])[1..] == [];
    } else {
      assert (actions + [action])[1..] == actions[1..] + [action];
      EnabledSnoc(actions[1..], action, disabled);
    }
  }

  /** The enabled items of the first `k + 1` actions extend those of the first `k`. */
  lemma SuggestionStep(actions: seq<Action>, disabled: seq<string>, k: nat)
    requires k < |actions|
    ensures Enabled(actions[..k + 1], disabled) == Enabled(actions[..k], disabled) + Offer(actions[k], disabled)
  {
    assert actions[..k + 1] == actions[..k] + [actions[k]];
    EnabledSnoc(actions[..k], actions[k], disabled);
  }

  /** The suggestion list is the seven offers, one after the other. */
  lemma SuggestionsUnfolded(disabled: seq<string>, input: string)
    ensures var t := Actions(input);
            Suggestions(disabled, input)
            == [] + Offer(t[0], disabled) + Offer(t[1], disabled) + Offer(t[2], disabled) + Offer(t[3], disabled)
               + Offer(t[4], disabled) + Offer(t[5], disabled) + Offer(t[6], disabled)
  {
    var t := Actions(input);
    assert t[..0] == [];
    SuggestionStep(t, disabled, 0);
    SuggestionStep(t, disabled, 1);
    SuggestionStep(t, disabled, 2);
    SuggestionStep(t, disabled, 3);
    SuggestionStep(t, disabled, 4);
    SuggestionStep(t, disabled, 5);
    SuggestionStep(t, disabled, 6);
    assert t[..7] == t;
  }

  // ---------------------------------------------------------------------
  // Device groups (_get_devices)

  /** The pseudo-device of a configured group: id and name are the stripped entry. */
  function GroupDevice(group: string): Device {
    Device(PyStr.Strip(group), PyStr.Strip(group))
  }

  /** How many group entries are non-empty before stripping. */
  function NonEmptyCount(groups: seq<string>): (n: nat)
    ensures n <= |groups|
  {
    if groups == [] then 0
    else (if groups[0] != [] then 1 else 0) + NonEmptyCount(groups[1..])
  }

  /**
   * One pseudo-device per group entry that is non-empty before stripping,
   * in configuration order.
   */
  function GroupDevices(groups: seq<string>): (devices: seq<Device>)
    ensures |devices| == NonEmptyCount(groups)
  {
    if groups == [] then []
    else (if groups[0] != [] then [GroupDevice(groups[0])] else []) + GroupDevices(groups[1..])
  }

  /**
   * Every non-empty group entry contributes its device, nothing else
   * does, and a group's id and name are the same.
   */
  lemma {:induction false} GroupDevicesSpec(groups: seq<string>)
    ensures var r := GroupDevices(groups);
            && |r| <= |groups|
            && (forall i :: 0 <= i < |r| ==> r[i].deviceId == r[i].deviceName)
            && (forall j :: 0 <= j < |groups| && groups[j] != [] ==> GroupDevice(groups[j]) in r)
            && (forall i :: 0 <= i < |r| ==> r[i] in Contributed(groups))
    decreases |groups|
  {
    if groups != [] {
      GroupDevicesSpec(groups[1..]);
      assert Contributed(groups[1..]) <= Contributed(groups);
      forall j | 0 < j < |groups| && groups[j] != []
        ensures GroupDevice(groups[j]) in GroupDevices(groups)
      {
        assert groups[j] == groups[1..][j - 1];
      }
    }
  }

  /** A group entry added at the end adds its device, if any, at the end. */
  lemma {:induction false} GroupDevicesSnoc(groups: seq<string>, g: string)
    ensures GroupDevices(groups + [g]) == GroupDevices(groups) + (if g != [] then [GroupDevice(g)] else [])
    decreases |groups|
  {
    if groups != [] {
      assert (groups + [g])[1..] == groups[1..] + [g];
      GroupDevicesSnoc(groups[1..], g);
    } else {
      assert ([] + [g])[1..] == [];
    }
  }

  /** The devices the non-empty group entries stand for. */
  ghost function Contributed(groups: seq<string>): set<Device> {
    set g | g in groups && g != [] :: GroupDevice(g)
  }
}
