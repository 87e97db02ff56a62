# Join plugin for Keypirinha: a Dafny model

The Join plugin lets the Keypirinha launcher drive Android devices through
the Join push API. On configuration it reads an API key, a text-to-speech
language, device groups, disabled actions and notification defaults, then
asks the API for the registered devices. The catalog lists one item per
device, or one guidance item when there are none. Choosing a device stores it
as the selection and offers up to seven actions: clipboard, notification,
download, website, find, speak and app. Executing an action builds one
`sendPush` URL and hands it to the transport.

The model has five modules:

- `Wrappers`: `Option`, standing for Python's `None`.
- `PyStr`: the Python string operations the plugin relies on, with Python's
  semantics: `str.split(sep)`, `str.strip()` and clamped slicing.
- `UrlQuote`: `urllib.parse.quote_plus`, with its percent-decoding round trip.
- `JoinApi`: the plugin's pure logic as values. It covers the request URLs,
  the notification payload, what each action sends, the catalog, device
  selection, the suggestion list and the merging of device groups.
- `JoinPlugin`: the plugin object, a class `Join` whose fields are those of
  the Python constructor. Its methods are the host callbacks and helpers,
  which update those fields in place.

Every URL handed to the transport is appended to a ghost log `sent`. The
transport's answer to the device listing is a parameter (`reply`), as are
the configuration store (`settings`) and the clipboard's contents.

`&url=` and `&file=` send the input unencoded, after the `https://`
prefixing (src/join.py:185-188). `&say=` encodes only the text: the
override language `input[1:3]` is sent raw (src/join.py:191, 196), so an
input such as `!&x hi` adds a parameter of its own (`JoinApi.SpeakRequest`).
Every other `&` action encodes the whole input (`JoinApi.DispatchUrl`,
`JoinApi.DispatchOther`).

## Model

| member | source | states |
|---|---|---|
| PyStr.Split | src/join.py:215-216 | `str.split(sep)` always yields at least one piece |
| PyStr.SplitPieces | src/join.py:215-216 | no piece of a split contains the separator |
| PyStr.SplitJoin | src/join.py:215-216 | joining the pieces with the separator gives back the string, so splitting loses nothing |
| PyStr.SplitAround | src/join.py:166 | a separator-free prefix followed by the separator splits off as the first piece |
| PyStr.SplitAppend | src/join.py:215-216 | the pieces of `a + sep + b` are the pieces of `a` followed by those of `b` |
| PyStr.SplitFirst | src/join.py:166 | the first piece is a prefix of the string, followed by the separator or the end |
| PyStr.StripLeft | src/join.py:218 | `lstrip()` is never longer than its input and does not start with whitespace |
| PyStr.StripRight | src/join.py:218 | `rstrip()` is never longer than its input and does not end with whitespace |
| PyStr.Strip | src/join.py:218 | `strip()` is never longer than its input and neither starts nor ends with whitespace |
| PyStr.StripLeftSpec | src/join.py:218 | `lstrip()` is the suffix after the leading whitespace, and starts with a non-space |
| PyStr.StripRightSpec | src/join.py:218 | `rstrip()` is the prefix before the trailing whitespace, and ends with a non-space |
| PyStr.StripSpec | src/join.py:218 | `strip()` is a stretch of the input that neither starts nor ends with whitespace |
| PyStr.StripSurroundings | src/join.py:218 | what `strip()` removes on either side is whitespace |
| PyStr.StripIdempotent | src/join.py:218 | stripping twice equals stripping once |
| PyStr.StripEmpty | src/join.py:237-238 | `strip()` is empty iff the input is all whitespace, so a blank group entry passes `if i:` and yields an empty id |
| PyStr.Slice | src/join.py:186 | `s[lo:hi]` clamps both bounds to the length; element `i` is `s[lo + i]` |
| PyStr.SlicePrefix | src/join.py:165 | `s[:len(p)] == p` iff `p` is a prefix of `s` |
| UrlQuote.Utf8 | src/join.py:278-280 | a code point encodes to 1 to 4 bytes; exactly one byte iff ASCII |
| UrlQuote.PercentEncoded | src/join.py:278-280 | three characters per byte, all from the quoted alphabet |
| UrlQuote.QuotePlus | src/join.py:278-280 | output uses only unreserved characters, `+` and `%`; an all-unreserved input is unchanged; output is never shorter |
| UrlQuote.QuotePlusAppend | src/join.py:278-280 | `quote_plus` works character by character: it distributes over concatenation |
| UrlQuote.QuotePlusSpace | src/join.py:278-280 | a space becomes `+`, not `%20` |
| UrlQuote.DecodePercentEncoded | src/join.py:278-280 | decoding `%XX` triples gives back their bytes |
| UrlQuote.QuotePlusDecodes | src/join.py:278-280 | percent-decoding `quote_plus(s)` gives the UTF-8 bytes of `s` (round trip) |
| JoinApi.Setting | src/join.py:211-223 | `settings.get(key, section, fallback)`: the stored value when the key is present, the fallback when it is not |
| JoinApi.Enc | src/join.py:278-280 | `_uri_encode` never yields a `&`, and percent-decoding its output gives back the input's UTF-8 bytes |
| JoinApi.StripEachSpec | src/join.py:216-218 | the disabled actions keep the number and order of the comma-separated entries, each stripped |
| JoinApi.RequestUrl | src/join.py:244-254 | a truthy message gives `sendPush?` + message, ending in `&deviceId=<id>&apikey=<key>`; otherwise the `listDevices` URL with the key |
| JoinApi.PushQuery | src/join.py:247-249 | a push query splits at `&` into the message's parameters, then `deviceId=<id>`, then `apikey=<key>` |
| JoinApi.SplitField | src/join.py:248 | appending `&key=value` to a query appends exactly one parameter |
| JoinApi.PayloadFields | src/join.py:270-275 | six `&`-free values give exactly six parameters, in order |
| JoinApi.NotificationPayload | src/join.py:268-276 | when the four configured values hold no `&`, the payload's parameters are, in order, title and text (both encoded), then icon, smallicon, priority and sound (passed through) |
| JoinApi.WithScheme | src/join.py:186-187 | the result starts with `http`; it is the input iff the input starts with `http`, else `https://` + input |
| JoinApi.SpeakArgs | src/join.py:190-195 | no leading `!`: the configured language and the whole input; with `!`, a language of at most two characters and a shorter text |
| JoinApi.SpeakOverride | src/join.py:190-192 | `!xx` plus any one character plus a text selects language `xx` and sends that text |
| JoinApi.SpeakShortOverride | src/join.py:190-192 | an override of at most four characters sends an empty text and a truncated language |
| JoinApi.SpeakRequest | src/join.py:189-196 | without a leading `!`: the configured language and the whole input, encoded; with it: `input[1:3]` as the language and `input[4:]`, encoded, as the text, `input[1:]` and an empty text for inputs under four characters |
| JoinApi.SpeakRawLanguage | src/join.py:191-196 | the override language is sent unencoded: `!&x ` + text yields `&language=&x&say=` + the encoded text |
| JoinApi.SpeakExample | src/join.py:190-192 | `!fr Bonjour` speaks `Bonjour` in `fr` |
| JoinApi.Dispatch | src/join.py:181-198 | IndexError iff the target is empty or it is `&say=` with empty input; Ignored iff the target is non-empty, not `&`-led and not one of the two fixed targets; only url/file change the stored input, and only to `https://` + input |
| JoinApi.DispatchUrl | src/join.py:185-188 | `&url=`/`&file=` send the target plus the prefixed, unencoded input and store it back |
| JoinApi.DispatchOther | src/join.py:197-198 | any other `&` target, `&find=true` included, sends the target plus the encoded input |
| JoinApi.DeviceItem | src/join.py:64-73 | a device's catalog item belongs to the plugin and its target passes the `DID=` test of `on_suggest` |
| JoinApi.IsCatalog | src/join.py:37-75 | a catalog is never empty: one guidance item without devices, one item per device otherwise |
| JoinApi.SelectedDeviceId | src/join.py:165-166 | the selected id holds no `=`; it follows `DID=` in the target and is followed by `=` or the end |
| JoinApi.SelectDeviceItem | src/join.py:64-72 | choosing a device's catalog item selects exactly that device, for ids without `=` |
| JoinApi.SelectTruncates | src/join.py:166 | an id containing `=` is cut at the first `=` (`DID=a=b` selects `a`) |
| JoinApi.Actions | src/join.py:80-157 | exactly seven actions |
| JoinApi.RankOfActions | src/join.py:80-157 | the k-th action's target has rank k, so the targets are distinct and fixed in order |
| JoinApi.Enabled | src/join.py:80-157 | never more items than actions; one per action when no action's tag is disabled |
| JoinApi.Suggestions | src/join.py:77-158 | at most seven suggestions, all seven when no action's tag is disabled |
| JoinApi.UnsetDisabledOffersAll | src/join.py:215-218 | an unset `disabled_actions` gives the disabled list `[""]`, which offers all seven suggestions |
| JoinApi.SuggestionsSpec | src/join.py:77-158 | every suggestion is an action whose tag is not disabled, and the suggestions keep the fixed order without repeats; every action whose tag is not disabled is offered |
| JoinApi.EnabledSound | src/join.py:80-157 | over a ranked run of actions, each offered item comes from a non-disabled action of that run |
| JoinApi.EnabledOrdered | src/join.py:80-157 | offered items keep the rank order |
| JoinApi.EnabledIncludes | src/join.py:80-157 | every non-disabled action's item is offered |
| JoinApi.SuggestionsUnfolded | src/join.py:77-158 | the list is the seven offers, one after another |
| JoinApi.GroupDevices | src/join.py:236-238 | as many pseudo-devices as group entries that are non-empty before stripping |
| JoinApi.GroupDevicesSpec | src/join.py:236-238 | every non-empty group entry contributes its pseudo-device, every device comes from a non-empty entry, and id and name are equal; with the count from `GroupDevices`, order follows from `GroupDevicesSnoc` |
| JoinApi.GroupDevicesSnoc | src/join.py:236-238 | one more group entry adds at most its own device, at the end |
| JoinPlugin.CollectDevices | src/join.py:229-242 | no answer, or one without `records`, gives no devices and no groups; otherwise the records in order, then the group devices |
| JoinPlugin.UnsetDefaults | src/join.py:212-223 | after a reload from settings lacking every key: empty API key, language `EN`, groups `[""]` contributing no device, disabled list `[""]`, empty notification defaults |
| JoinPlugin.StripEntries | src/join.py:216-218 | the loop appends every entry, stripped, in order |
| JoinPlugin.Join.constructor | src/join.py:20-28 | every field starts empty: no devices, no groups, no disabled actions, empty key, selection, input and language |
| JoinPlugin.Join.ReadConfig | src/join.py:207-225 | every configuration field is reloaded from the settings, with the documented defaults; the disabled actions are rebuilt rather than appended to; the device list is requested with the new key; the selection and the input are untouched |
| JoinPlugin.Join.GetDevices | src/join.py:227-242 | sends the listing request, then merges the records with the configured groups |
| JoinPlugin.Join.BuildRequest | src/join.py:244-254 | logs exactly one URL, `RequestUrl(message, ...)`; only the listing returns the answer |
| JoinPlugin.Join.SendNotification | src/join.py:268-276 | pushes the notification payload for the text |
| JoinPlugin.Join.OnCatalog | src/join.py:37-75 | with no devices, one guidance item that tells a missing key from an empty list; otherwise one `DID=<id>` item per device, in order |
| JoinPlugin.Join.AppendUnlessDisabled | src/join.py:80-90 | appends the item iff its tag is not disabled |
| JoinPlugin.Join.CreateSuggestions | src/join.py:77-158 | the suggestions equal `Suggestions(disabled, input)` |
| JoinPlugin.Join.OnSuggest | src/join.py:160-170 | a chain that is empty or not led by a plugin item changes nothing; otherwise it stores the input, selects the device of a final `DID=` item, and offers the suggestions |
| JoinPlugin.Join.OnExecute | src/join.py:172-198 | other plugins' items are ignored; otherwise the outcome is `Dispatch`; a sent outcome logs one push URL and stores the input; nothing else changes |
| JoinPlugin.Join.OnConfigChanged | src/join.py:200-203 | reloading the configuration yields the catalog of the new devices, after one listing request; the selected device and the stored input are untouched |

## Left out

- Host machinery is not modelled: icons, `short_desc`, args and hit hints,
  `loop_on_suggest`, `set_catalog`/`set_suggestions` (results are returned
  instead), and `on_start`'s icon loading. So `current_device_id` appearing
  in the clipboard item's description is not modelled.
- `_create_suggestions` ignores its `user_input` argument and reads the
  stored input; the model drops the argument.
- `on_execute`'s `action` argument and the unused `item_category` and
  `item_label` locals are dropped.
- `_do_send` (HTTP GET, JSON decoding, charset handling, logging of
  `success`/`errorMessage` and of transport exceptions) is not modelled. The
  URL goes to the ghost `sent` log. The decoded listing answer is the `reply`
  parameter, `None` for a transport failure. Push answers are discarded, as
  the code discards them.
- Records with a wrong shape (non-dict entries, missing `deviceName`) are
  not modelled: a record is a `Device` value.
- The `NETOPTIONS` branch of `on_events` and the opener are not modelled.
  Neither is the case where `PACKCONFIG` and `NETOPTIONS` arrive together;
  `OnConfigChanged` covers `PACKCONFIG` alone.
- `load_settings` and Keypirinha's value handling (unquoting, environment
  expansion) are not modelled: the settings are a plain map.
- `android_notifications` is `{}` until `on_start` runs `_read_config`;
  the model starts it as five empty strings. Before configuration, the
  `title` lookup would return `None` and `quote_plus` would raise on it
  (src/join.py:270).
- The item category is two-valued: the plugin's own category or any other.
  `USER_BASE + 1` is opaque.
- `quote_plus` on characters that cannot be UTF-8 encoded (lone
  surrogates) is not modelled: Dafny `char` values are Unicode scalar
  values.
