/**
 * The plugin object: the fields its constructor sets up, and the host
 * callbacks and helpers that read and update them. Every request the plugin
 * hands to the transport is recorded, in order, in the ghost log `sent`;
 * the answer to the device listing is a parameter.
 */
module JoinPlugin {
  import opened Wrappers
  import PyStr
  import opened JoinApi

  /**
   * The loops of `_get_devices` over the listing's answer: the API records
   * in order, then one pseudo-device per non-empty group entry; nothing at
   * all when there is no answer or it has no `records`.
   */
  method CollectDevices(response: Option<Envelope>, groups: seq<string>) returns (devices: seq<Device>)
    ensures response.None? || response.value.records.None? ==> devices == []
    ensures response.Some? && response.value.records.Some? ==>
              devices == response.value.records.value + GroupDevices(groups)
  {
    devices := [];
    if response.Some? && response.value.records.Some? {
      var records := response.value.records.value;
      var i := 0;
      while i < |records|
        invariant 0 <= i <= |records|
        invariant devices == records[..i]
      {
        devices := devices + [records[i]];
        i := i + 1;
      }
      var j := 0;
      while j < |groups|
        invariant 0 <= j <= |groups|
        invariant devices == records + GroupDevices(groups[..j])
      {
        var group := groups[j];
        assert groups[..j + 1] == groups[..j] + [group];
        GroupDevicesSnoc(groups[..j], group);
        if group != [] {
          assert records + GroupDevices(groups[..j]) + [GroupDevice(group)]
              == records + (GroupDevices(groups[..j]) + [GroupDevice(group)]);
          devices := devices + [GroupDevice(group)];
        }
        j := j + 1;
      }
      assert groups[..|groups|] == groups;
    }
  }

  /**
   * The loop of `_read_config` that appends every comma-separated entry of
   * `disabled_actions`, stripped, to the (just emptied) list of disabled
   * actions.
   */
  method StripEntries(start: seq<string>, parts: seq<string>) returns (stripped: seq<string>)
    ensures stripped == start + StripEach(parts)
  {
    stripped := start;
    for i := 0 to |parts|
      invariant stripped == start + StripEach(parts[..i])
    {
      assert parts[..i + 1][..i] == parts[..i];
      stripped := stripped + [PyStr.Strip(parts[i])];
    }
    assert parts[..|parts|] == parts;
  }

  /**
   * The fallbacks of `_read_config`: with none of its keys set, the API key
   * is empty, the speech language is `EN`, the group list is `[""]` (which
   * contributes no device), nothing is disabled but the empty tag, and the
   * notification defaults are empty.
   */
  lemma UnsetDefaults(j: Join, settings: Settings, reply: Option<Envelope>)
    requires j.LoadedFrom(settings, reply)
    requires (SectionMain, "api_key") !in settings && (SectionMain, "tts_language") !in settings
    requires (SectionMain, "device_groups") !in settings && (SectionMain, "disabled_actions") !in settings
    requires (SectionNotif, "title") !in settings && (SectionNotif, "icon") !in settings
    requires (SectionNotif, "smallicon") !in settings && (SectionNotif, "priority") !in settings
    requires (SectionNotif, "sound") !in settings
    ensures j.apiKey == "" && j.ttsLanguage == "EN"
    ensures j.deviceGroups == [""] && GroupDevices(j.deviceGroups) == []
    ensures j.disabledSuggestions == [""]
    ensures j.androidNotifications == Notification("", "", "", "", "")
  {
    assert PyStr.Split("", ',') == [""];
    assert StripEach([""]) == [PyStr.Strip("")];
  }

  class Join {
    var androidNotifications: Notification
    var devices: seq<Device>
    var deviceGroups: seq<string>
    var disabledSuggestions: seq<string>
    var apiKey: string
    var currentDeviceId: string
    var currentUserInput: string
    var ttsLanguage: string
    /** Every URL handed to the transport, oldest first. */
    ghost var sent: seq<string>

    constructor ()
      ensures androidNotifications == Notification("", "", "", "", "")
      ensures devices == [] && deviceGroups == [] && disabledSuggestions == []
      ensures apiKey == "" && currentDeviceId == "" && currentUserInput == "" && ttsLanguage == ""
      ensures sent == []
    {
      androidNotifications := Notification("", "", "", "", "");
      devices := [];
      deviceGroups := [];
      disabledSuggestions := [];
      apiKey := "";
      currentDeviceId := "";
      currentUserInput := "";
      ttsLanguage := "";
      sent := [];
    }

    /** The configuration fields as `_read_config` leaves them. */
    ghost predicate LoadedFrom(settings: Settings, reply: Option<Envelope>)
      reads this
    {
      && apiKey == Setting(settings, SectionMain, "api_key", "")
      && ttsLanguage == Setting(settings, SectionMain, "tts_language", "EN")
      && deviceGroups == PyStr.Split(Setting(settings, SectionMain, "device_groups", ""), ',')
      && disabledSuggestions == StripEach(PyStr.Split(Setting(settings, SectionMain, "disabled_actions", ""), ','))
      && androidNotifications == Notification(Setting(settings, SectionNotif, "title", ""),
                                              Setting(settings, SectionNotif, "icon", ""),
                                              Setting(settings, SectionNotif, "smallicon", ""),
                                              Setting(settings, SectionNotif, "priority", ""),
                                              Setting(settings, SectionNotif, "sound", ""))
      && (reply.None? || reply.value.records.None? ==> devices == [])
      && (reply.Some? && reply.value.records.Some? ==>
            devices == reply.value.records.value + GroupDevices(deviceGroups))
    }

    /**
     * `_read_config`: reloads every configuration field from `settings`
     * (the disabled actions afresh, not added to the previous ones), lists
     * the devices with the new API key, and leaves the selection alone.
     */
    method ReadConfig(settings: Settings, reply: Option<Envelope>)
      modifies this`androidNotifications, this`deviceGroups, this`disabledSuggestions, this`apiKey,
               this`ttsLanguage, this`devices, this`sent
      ensures LoadedFrom(settings, reply)
      ensures sent == old(sent) + [ListEndpoint + apiKey]
    {
      androidNotifications := Notification("", "", "", "", "");
      deviceGroups := [];
      disabledSuggestions := [];

      apiKey := Setting(settings, SectionMain, "api_key", "");
      ttsLanguage := Setting(settings, SectionMain, "tts_language", "EN");
      deviceGroups := PyStr.Split(Setting(settings, SectionMain, "device_groups", ""), ',');
      var parts := PyStr.Split(Setting(settings, SectionMain, "disabled_actions", ""), ',');
      var stripped := StripEntries(disabledSuggestions, parts);
      disabledSuggestions := stripped;
      var title := Setting(settings, SectionNotif, "title", "");
      var icon := Setting(settings, SectionNotif, "icon", "");
      var smallicon := Setting(settings, SectionNotif, "smallicon", "");
      var priority := Setting(settings, SectionNotif, "priority", "");
      var sound := Setting(settings, SectionNotif, "sound", "");
      androidNotifications := Notification(title, icon, smallicon, priority, sound);
      devices := GetDevices(reply);
    }

    /**
     * `_get_devices`: asks for the device listing, then merges its records
     * with the configured groups.
     */
    method GetDevices(reply: Option<Envelope>) returns (found: seq<Device>)
      modifies this`sent
      ensures sent == old(sent) + [ListEndpoint + apiKey]
      ensures reply.None? || reply.value.records.None? ==> found == []
      ensures reply.Some? && reply.value.records.Some? ==>
                found == reply.value.records.value + GroupDevices(deviceGroups)
    {
      var response := BuildRequest(None, reply);
      found := CollectDevices(response, deviceGroups);
    }

    /**
     * `_build_request`: sends a push carrying `message` to the selected
     * device when `message` is truthy, and asks for the device listing
     * otherwise; only the listing's answer is handed back.
     */
    method BuildRequest(message: Option<string>, reply: Option<Envelope>) returns (response: Option<Envelope>)
      modifies this`sent
      ensures sent == old(sent) + [RequestUrl(message, currentDeviceId, apiKey)]
      ensures response == if Truthy(message) then None else reply
    {
      if message.Some? && message.value != [] {
        var apiAction := "messaging/v1/sendPush?";
        var deviceId := "&deviceId=" + currentDeviceId + "&apikey=";
        var apiRequest := ApiAccessPoint + apiAction + message.value + deviceId + apiKey;
        assert apiRequest == RequestUrl(message, currentDeviceId, apiKey);
        sent := sent + [apiRequest];
        response := None;
      } else {
        var apiAction := "registration/v1/listDevices?apikey=";
        var apiRequest := ApiAccessPoint + apiAction + apiKey;
        sent := sent + [apiRequest];
        response := reply;
      }
    }

    /** `_send_notification`: pushes the notification payload for `text`. */
    method SendNotification(text: string)
      modifies this`sent
      ensures sent == old(sent) + [RequestUrl(Some(NotificationPayload(androidNotifications, text)),
                                              currentDeviceId, apiKey)]
    {
      var notification := NotificationPayload(androidNotifications, text);
      var _ := BuildRequest(Some(notification), None);
    }

    /** `on_catalog`. */
    method OnCatalog() returns (catalog: seq<Item>)
      ensures IsCatalog(catalog, devices, apiKey)
    {
      catalog := [];
      if devices == [] {
        var errLabel;
        if apiKey == [] {
          errLabel := "Join: API key missing";
        } else {
          errLabel := "Join: No registered devices";
        }
        catalog := catalog + [Item(ItemJoin, errLabel, ErrorTarget)];
      }
      if devices != [] {
        var i := 0;
        while i < |devices|
          invariant 0 <= i <= |devices|
          invariant |catalog| == i
          invariant forall k :: 0 <= k < i ==> catalog[k] == DeviceItem(devices[k])
        {
          var d := devices[i];
          catalog := catalog + [Item(ItemJoin, "Join: " + d.deviceName, DevicePrefix + d.deviceId)];
          i := i + 1;
        }
      }
    }

    /**
     * One block of `_create_suggestions`: appends the item unless its
     * action tag is among the disabled ones.
     */
    method AppendUnlessDisabled(suggestions: seq<Item>, tag: string, item: Item) returns (extended: seq<Item>)
      ensures extended == suggestions + Offer(Action(tag, item), disabledSuggestions)
    {
      extended := suggestions;
      if tag !in disabledSuggestions {
        extended := extended + [item];
      }
    }

    /** `_create_suggestions`: the actions not disabled in the configuration. */
    method CreateSuggestions() returns (suggestions: seq<Item>)
      ensures suggestions == Suggestions(disabledSuggestions, currentUserInput)
    {
      var input := currentUserInput;
      SuggestionsUnfolded(disabledSuggestions, input);
      suggestions := [];
      suggestions := AppendUnlessDisabled(suggestions, "clipboard", Item(ItemJoin, "Sync computer clipboard to device", "send_clipboard"));
      suggestions := AppendUnlessDisabled(suggestions, "notification", Item(ItemJoin, "Send notification: " + input, "send_notification"));
      suggestions := AppendUnlessDisabled(suggestions, "download", Item(ItemJoin, "Download: " + input, "&file="));
      suggestions := AppendUnlessDisabled(suggestions, "website", Item(ItemJoin, "Open URL: " + input, "&url="));
      suggestions := AppendUnlessDisabled(suggestions, "find", Item(ItemJoin, "Find device", "&find=true"));
      suggestions := AppendUnlessDisabled(suggestions, "speak", Item(ItemJoin, "Speak: " + input, "&say="));
      suggestions := AppendUnlessDisabled(suggestions, "app", Item(ItemJoin, "Open App: " + input, "&app="));
    }

    /**
     * `on_suggest`: for a chain that starts with one of the plugin's items,
     * stores the typed text, selects the device if the last item is a
     * device, and offers the suggestions; any other chain changes nothing.
     */
    method OnSuggest(userInput: string, chain: seq<Item>) returns (suggestions: Option<seq<Item>>)
      modifies this`currentDeviceId, this`currentUserInput
      ensures chain == [] || chain[0].category != ItemJoin ==>
                suggestions == None
                && currentDeviceId == old(currentDeviceId) && currentUserInput == old(currentUserInput)
      ensures chain != [] && chain[0].category == ItemJoin ==>
                var last := chain[|chain| - 1].target;
                && currentUserInput == userInput
                && currentDeviceId == (if SelectsDevice(last) then SelectedDeviceId(last) else old(currentDeviceId))
                && suggestions == Some(Suggestions(disabledSuggestions, userInput))
    {
      if chain == [] || chain[0].category != ItemJoin {
        return None;
      }
      var last := chain[|chain| - 1].target;
      if PyStr.Slice(last, 0, 4) == DevicePrefix {
        currentDeviceId := SelectedDeviceId(last);
      }
      currentUserInput := userInput;
      var items := CreateSuggestions();
      suggestions := Some(items);
    }

    /**
     * `on_execute`: carries out the chosen plugin item for the selected
     * device; items of other plugins are left alone. `clipboard` is what
     * the clipboard holds at that moment.
     */
    method OnExecute(item: Item, clipboard: string) returns (outcome: Outcome)
      modifies this`currentUserInput, this`sent
      ensures outcome == if item.category != ItemJoin then Ignored
                         else Dispatch(item.target, old(currentUserInput), ttsLanguage,
                                       androidNotifications, clipboard)
      ensures outcome.Sent? ==>
                && currentUserInput == outcome.input
                && sent == old(sent) + [RequestUrl(Some(outcome.message), currentDeviceId, apiKey)]
      ensures !outcome.Sent? ==> currentUserInput == old(currentUserInput) && sent == old(sent)
    {
      if item.category != ItemJoin {
        return Ignored;
      }
      var target := item.target;
      if target == "send_notification" {
        SendNotification(currentUserInput);
        outcome := Sent(NotificationPayload(androidNotifications, currentUserInput), currentUserInput);
      } else if target == "send_clipboard" {
        var message := "&clipboard=" + Enc(clipboard);
        var _ := BuildRequest(Some(message), None);
        outcome := Sent(message, currentUserInput);
      } else if target == "&url=" || target == "&file=" {
        if PyStr.Slice(currentUserInput, 0, 4) != "http" {
          currentUserInput := "https://" + currentUserInput;
        }
        var message := target + currentUserInput;
        var _ := BuildRequest(Some(message), None);
        outcome := Sent(message, currentUserInput);
      } else if target == "&say=" {
        if currentUserInput == [] {
          return IndexError;
        }
        var sayLanguage, sayMessage;
        if currentUserInput[0] == '!' {
          sayLanguage := PyStr.Slice(currentUserInput, 1, 3);
          sayMessage := PyStr.Slice(currentUserInput, 4, |currentUserInput|);
        } else {
          sayLanguage := ttsLanguage;
          sayMessage := currentUserInput;
        }
        var message := "&language=" + sayLanguage + target + Enc(sayMessage);
        var _ := BuildRequest(Some(message), None);
        outcome := Sent(message, currentUserInput);
      } else if target == [] {
        return IndexError;
      } else if target[0] == '&' {
        var message := target + Enc(currentUserInput);
        var _ := BuildRequest(Some(message), None);
        outcome := Sent(message, currentUserInput);
      } else {
        outcome := Ignored;
      }
    }

    /**
     * `on_events` for a change of the package configuration: reloads the
     * configuration and lists the catalog anew.
     */
    method OnConfigChanged(settings: Settings, reply: Option<Envelope>) returns (catalog: seq<Item>)
      modifies this`androidNotifications, this`deviceGroups, this`disabledSuggestions, this`apiKey,
               this`ttsLanguage, this`devices, this`sent
      ensures LoadedFrom(settings, reply)
      ensures IsCatalog(catalog, devices, apiKey)
      ensures sent == old(sent) + [ListEndpoint + apiKey]
      ensures currentDeviceId == old(currentDeviceId) && currentUserInput == old(currentUserInput)
    {
      ReadConfig(settings, reply);
      catalog := OnCatalog();
    }
  }
}
