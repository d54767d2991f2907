# UiAutomator2 server core, modelled in Dafny

This project models the core of the Appium UiAutomator2 server, the
instrumentation that runs on an Android device and answers WebDriver
commands. Each Java class of the core becomes one Dafny module. A class
whose fields its methods update becomes a Dafny `class`. Pure helpers
become functions, with lemmas about them.

What is modelled:

- **W3C actions.** `ActionsPreprocessor` drops the items that a pointer
  cancel makes void and rejects malformed chains. `ActionsTokenizer` turns
  the chains into a timeline of input events on a 5 ms grid (`ActionTokens`).
  The lemmas show the timeline stays sorted, is keyed on the grid, and
  holds exactly the events each item asks for.
- **Element references in JSON.** Covers `W3CElementUtils` and
  `ElementHelpers`, including setText and the JSON shape of an element.
- **Page source and XPath.** Covers `XMLHelpers` (XML-safe names and
  text) and `AccessibilityNodeInfoDumper`, which builds the DOM of the
  accessibility tree. `XPathFinder` numbers the DOM elements and maps the
  selected nodes back to elements.
- **The snapshot tree.** `UiAutomationElement` is the tree of UI elements
  with its cache, visible bounds and attributes.
- **Node helpers.** Text, bounds, visibility and progress in
  `AccessibilityNodeInfoHelper(s)`.
- **Element caches.** `KnownElements` and `AndroidElementsHash` cache
  elements. `FindElements` and `NativeAndroidBySelector` turn locators into
  UiAutomator selectors. `LocationHelpers` checks locating strategies.
- **Session state.** The session, the settings registry and
  `UpdateSettings`. `JsonUtils` reads JSON integers.
- **The server.** Covers the server's lifecycle (`ServerInstrumentation`),
  the response envelope (`AppiumResponse`) and the error-to-response
  mapping of `SafeRequestHandler`.
- **Element attributes.** `GetElementAttribute` reads attributes and
  estimates the scroll offset of a scrollable element.

The device is not modelled. UiAutomator's object and node lookups, the
XPath engine, the clock and Android's number parsing are parameters of the
model: functions or records of functions that the operations consult.

## Model

| member | source | states |
|---|---|---|
| SettingsModel.RegistryComplete | app/src/main/java/io/appium/uiautomator2/model/settings/Settings.java:19-30 | every setting of the enum is in the registry list Settings.values() |
| SettingsModel.NameInjective | app/src/main/java/io/appium/uiautomator2/model/settings/Settings.java:19-45 | two settings with the same name are the same setting, so a lookup by name is unambiguous |
| SettingsModel.ConvertValue | app/src/main/java/io/appium/uiautomator2/model/settings/AbstractSetting.java:48-55 | a value of the declared type is returned unchanged; exactly the others raise a UiAutomator2Exception |
| SettingsModel.UpdateSetting | app/src/main/java/io/appium/uiautomator2/model/settings/AbstractSetting.java:30-38 | an update fails exactly when the value has the wrong type (a generic UiAutomator2Exception) or `apply` throws a java.lang.Error, which `catch (Exception e)` lets through and which then propagates as it is; any Exception from `apply` is swallowed, and a successful update applies the given value |
| SettingsModel.UpdateIgnoresApplyFailure | app/src/main/java/io/appium/uiautomator2/model/settings/AbstractSetting.java:32-37 | an Exception thrown by `apply` changes neither whether the update succeeds nor the value applied; an Error from `apply` always fails the update |
| SettingsModel.AcceptedValues | app/src/main/java/io/appium/uiautomator2/model/settings/AbstractSetting.java:42-55 | a boolean is accepted by exactly the boolean settings, a string by exactly elementResponseAttributes, and an Integer by none |
| JsonUtils.ReadInteger | app/src/main/java/io/appium/uiautomator2/utils/JSONUtils.java:32-56 | a missing key or a non-numeric value is an IllegalArgumentException when required and null otherwise; an Integer is returned, a Long narrowed to 32 bits, a string parsed or a NumberFormatException |
| JsonUtils.ReadRequiredInteger | app/src/main/java/io/appium/uiautomator2/utils/JSONUtils.java:26-30 | the required form succeeds exactly when the required read does, and then never answers null |
| JsonUtils.RequiredRefinesOptional | app/src/main/java/io/appium/uiautomator2/utils/JSONUtils.java:33-56 | the required and optional reads agree whenever the optional one finds a number; a null optional read is a refusal of the required one, and those are the only differences |
| JsonUtils.ReadIntegerString | app/src/main/java/io/appium/uiautomator2/utils/JSONUtils.java:47-48 | an int stored as its decimal string reads back as that int |
| NativeAndroidBySelector.PickFrom | app/src/main/java/io/appium/uiautomator2/model/internal/NativeAndroidBySelector.java:20-41 | a picked locator carries the selector unchanged and a strategy whose name is exactly the method; an unknown method raises an error naming it |
| NativeAndroidBySelector.PickFromName | app/src/main/java/io/appium/uiautomator2/model/internal/NativeAndroidBySelector.java:20-36 | every strategy in the table is picked by its own name |
| NativeAndroidBySelector.PickFromAccepts | app/src/main/java/io/appium/uiautomator2/model/internal/NativeAndroidBySelector.java:20-41 | a method is accepted if and only if it is the name of some strategy |
| NativeAndroidBySelector.PickFromRefuses | app/src/main/java/io/appium/uiautomator2/model/internal/NativeAndroidBySelector.java:23-25 | the commented-out "tag name" strategy is refused, and so are names that differ only in letter case |
| SafeRequestHandler.Reported | app/src/main/java/io/appium/uiautomator2/handler/request/SafeRequestHandler.java:39-49 | UiObjectNotFound, StaleObject and JSONException are wrapped as ElementNotFound, StaleElementReference and InvalidArgument; any other Throwable is reported as it is |
| SafeRequestHandler.Handle | app/src/main/java/io/appium/uiautomator2/handler/request/SafeRequestHandler.java:36-51 | the response of safeHandle comes back unchanged; a throw becomes a response for the same session holding the reported exception |
| SafeRequestHandler.HandleFailureStatus | app/src/main/java/io/appium/uiautomator2/handler/request/SafeRequestHandler.java:36-51 | a handler that threw never answers 200: not-found and stale objects give 404, a JSON error 400, anything else the default error status |
| AccessibilityNodeInfoHelper.GetVisibleBoundsInScreen | app/src/main/java/io/appium/uiautomator2/core/AccessibilityNodeInfoHelper.java:37-51 | null exactly for a null node; otherwise the points covered are those of the node's bounds inside the display, or the bounds unchanged when they miss the display |
| AccessibilityNodeInfoHelper.SetProgressValue | app/src/main/java/io/appium/uiautomator2/core/AccessibilityNodeInfoHelper.java:59-69 | false whenever the node lacks ACTION_SET_PROGRESS; otherwise the outcome of performAction |
| AccessibilityNodeInfoHelper.TruncateTextToMaxLength | app/src/main/java/io/appium/uiautomator2/core/AccessibilityNodeInfoHelper.java:77-86 | the result is always a prefix of the text, of length min(length, maxTextLength) when the maximum is positive, and the whole text otherwise |
| KnownElementsCache.KnownElements.constructor | app/src/main/java/io/appium/uiautomator2/model/KnownElements.java:35-38 | the cache starts empty |
| KnownElementsCache.KnownElements.GetCacheKey | app/src/main/java/io/appium/uiautomator2/model/KnownElements.java:41-48 | a key is found if and only if the element is a cached value, and the key found holds that element |
| KnownElementsCache.KnownElements.Add | app/src/main/java/io/appium/uiautomator2/model/KnownElements.java:128-134 | an element already cached leaves the cache unchanged; a new one is stored under its own id; either way the id returned holds the element, and keying by id is preserved |
| KnownElementsCache.KnownElements.GetElementFromCache | app/src/main/java/io/appium/uiautomator2/model/KnownElements.java:111-126 | an unknown id gives null and an answering handle is returned unchanged; a stale one is restored first, and a refused restore raises StaleElementReference; the cache keeps its ids and locators |
| KnownElementsCache.KnownElements.RestoreCachedElement | app/src/main/java/io/appium/uiautomator2/model/KnownElements.java:50-109 | a handle without a locator or from a multiple match is refused; an unknown strategy or a failed search raises StaleElementReference; a success re-caches the same handle, under the same id, holding the object found |
| ServerLifecycle.StopThread | app/src/main/java/io/appium/uiautomator2/server/ServerInstrumentation.java:131-149 | afterwards there is no thread; the server is marked stopped exactly when it already was or its thread was alive |
| ServerLifecycle.Start | app/src/main/java/io/appium/uiautomator2/server/ServerInstrumentation.java:111-129 | SessionRemovedException exactly when there is no thread and the server was stopped; otherwise a live thread, the stopped flag kept, and the static instance cleared exactly when a dead thread was stopped first |
| ServerLifecycle.StopThenStartFails | app/src/main/java/io/appium/uiautomator2/server/ServerInstrumentation.java:111-149 | once a live thread is stopped, starting again raises SessionRemovedException |
| ServerLifecycle.StartIsIdempotent | app/src/main/java/io/appium/uiautomator2/server/ServerInstrumentation.java:111-129 | a server not yet stopped can always be started, and starting it again changes nothing |
| ServerLifecycle.StoppedIsPermanent | app/src/main/java/io/appium/uiautomator2/server/ServerInstrumentation.java:111-149 | stopping the thread twice is stopping it once, and neither a stop nor a start resets the stopped flag |
| ServerLifecycle.ServerInstrumentation.constructor | app/src/main/java/io/appium/uiautomator2/server/ServerInstrumentation.java:51-58 | the port is kept, and there is no thread and no stop yet |
| ServerLifecycle.ServerInstrumentation.StopServerThread | app/src/main/java/io/appium/uiautomator2/server/ServerInstrumentation.java:131-149 | the new state is StopThread of the old one |
| ServerLifecycle.ServerInstrumentation.StopServer | app/src/main/java/io/appium/uiautomator2/server/ServerInstrumentation.java:102-109 | the thread is stopped as StopThread says and the static instance is cleared |
| ServerLifecycle.ServerInstrumentation.StartServer | app/src/main/java/io/appium/uiautomator2/server/ServerInstrumentation.java:111-129 | succeeds exactly when Start does, leaves the state Start describes, and clears the static instance only when Start went through stopServer; a refusal changes nothing |
| ServerLifecycle.Statics.constructor | app/src/main/java/io/appium/uiautomator2/server/ServerInstrumentation.java:43 | there is no instance at first |
| ServerLifecycle.Create | app/src/main/java/io/appium/uiautomator2/server/ServerInstrumentation.java:51-58 | a server is created exactly for a port in [1024; 65535], with no thread; any other port is a UiAutomator2Exception |
| ServerLifecycle.GetInstance | app/src/main/java/io/appium/uiautomator2/server/ServerInstrumentation.java:60-65 | an existing instance is returned unchanged; otherwise a new one is created and stored exactly when the configured port is valid |
| ServerLifecycle.OnReceive | app/src/main/java/io/appium/uiautomator2/server/ServerInstrumentation.java:151-177 | the server is stopped exactly on a power-disconnected action, ignoring case, with an instance and the setting on; then its thread is stopped and the instance cleared, and otherwise nothing changes |
| ServerLifecycle.OtherActionsIgnored | app/src/main/java/io/appium/uiautomator2/server/ServerInstrumentation.java:157-159 | a missing action, or any action that differs from ACTION_POWER_DISCONNECTED ignoring case, never shuts the server down; with an instance and the setting on, the power-disconnected action always does |
| ServerLifecycle.ActionCaseIgnored | app/src/main/java/io/appium/uiautomator2/server/ServerInstrumentation.java:157 | lower-casing the action never changes the decision |
| SessionModel.CompactResponses | app/src/main/java/io/appium/uiautomator2/model/Session.java:64-68 | true when the capability is absent, and otherwise exactly when its string form equals "true" ignoring case |
| SessionModel.ResponseAttributes | app/src/main/java/io/appium/uiautomator2/model/Session.java:70-75 | ["name", "text"] when the capability is absent or blank after trimming; otherwise comma-free names that are a prefix of the comma-separated pieces (the whole value when it has no comma); a non-string fails the cast |
| SessionModel.Session.constructor | app/src/main/java/io/appium/uiautomator2/model/Session.java:30-38 | the id and capabilities are kept, there is no scroll data yet and the element cache is empty |
| SessionModel.Session.SetCapability | app/src/main/java/io/appium/uiautomator2/model/Session.java:40-44 | the value is stored under the name, every other capability is kept, and the value is returned |
| SessionModel.Session.GetCapability | app/src/main/java/io/appium/uiautomator2/model/Session.java:46-49 | a value is returned exactly for a stored name, and it is the stored value |
| SessionModel.Session.GetCapabilityOr | app/src/main/java/io/appium/uiautomator2/model/Session.java:51-54 | the stored value when there is one, and the default exactly when there is none |
| SessionModel.Session.SetLastScrollData | app/src/main/java/io/appium/uiautomator2/model/Session.java:86-88 | the scroll data is replaced and the capabilities are untouched |
| SessionModel.SetThenGet | app/src/main/java/io/appium/uiautomator2/model/Session.java:40-62 | reading back a capability just set gives the value set, under both getters |
| SessionModel.CompactFollowsSetting | app/src/main/java/io/appium/uiautomator2/model/Session.java:64-68 | storing a boolean under shouldUseCompactResponses makes the query answer that boolean |
| SessionModel.BlankAttributesDefault | app/src/main/java/io/appium/uiautomator2/model/Session.java:70-75 | an attribute list made only of blanks falls back to name and text |
| AppiumResponses.Wrap | app/src/main/java/io/appium/uiautomator2/http/AppiumResponse.java:56-58 | the wrapping UiAutomator2Exception has the kind asked for, and the cause's toString as its message |
| AppiumResponses.NewResponse | app/src/main/java/io/appium/uiautomator2/http/AppiumResponse.java:39-53 | the session and value are kept; a non-Throwable, null included, gives 200; a UiAutomator2Exception gives its own status and any other Throwable DEFAULT_ERROR_STATUS |
| AppiumResponses.StatusIsOkExactlyForValues | app/src/main/java/io/appium/uiautomator2/http/AppiumResponse.java:39-49 | a response's status is 200 if and only if its value is not a Throwable |
| AppiumResponses.FormatNull | app/src/main/java/io/appium/uiautomator2/http/AppiumResponse.java:72-74 | null becomes JSONObject.NULL and any other value is kept |
| AppiumResponses.FormatException | app/src/main/java/io/appium/uiautomator2/http/AppiumResponse.java:55-64 | the object has the keys error, message and stacktrace in that order; a UiAutomator2Exception without a message has no message key, as JSONObject.put with null removes the key |
| AppiumResponses.FormatExceptionFields | app/src/main/java/io/appium/uiautomator2/http/AppiumResponse.java:55-64 | error is the exception's code, or "unknown error" for a foreign Throwable; message is the exception's message, absent when it has none, or the foreign Throwable's toString; stacktrace is the trace given |
| AppiumResponses.Body | app/src/main/java/io/appium/uiautomator2/http/AppiumResponse.java:70-74 | the body has exactly the keys sessionId and value, in that order |
| AppiumResponses.HttpResponse.constructor | app/src/main/java/io/appium/uiautomator2/http/AppiumResponse.java:66 | every field of the response starts empty |
| AppiumResponses.RenderTo | app/src/main/java/io/appium/uiautomator2/http/AppiumResponse.java:66-83 | content type and encoding are always set; the status and the JSON text of the body, which holds no raw control character, when the JSON builds; "{}" with DEFAULT_ERROR_STATUS when it does not |
| AppiumResponses.BodyHoldsValue | app/src/main/java/io/appium/uiautomator2/http/AppiumResponse.java:70-75 | reading the rendered body back gives the value put in, and the session id when there is one |
| W3CElementUtils.ElementIdFrom | app/src/main/java/io/appium/uiautomator2/utils/w3c/W3CElementUtils.java:32-41 | nothing exactly when no later key is an id key (ignoring case) holding a string; otherwise the string under the first such key |
| W3CElementUtils.ExtractElementId | app/src/main/java/io/appium/uiautomator2/utils/w3c/W3CElementUtils.java:30-42 | the key loop with its early return answers ElementId of the object's members |
| W3CElementUtils.ElementIdMeaning | app/src/main/java/io/appium/uiautomator2/utils/w3c/W3CElementUtils.java:31-41 | on an object, null exactly when every id key holds a non-string; otherwise the string of the first id key holding one, and id keys with other values are passed over |
| W3CElementUtils.AttachElementId | app/src/main/java/io/appium/uiautomator2/utils/w3c/W3CElementUtils.java:44-48 | the destination's members become Attach of the old members: the id put under ELEMENT, then under the W3C key |
| W3CElementUtils.AttachWrites | app/src/main/java/io/appium/uiautomator2/utils/w3c/W3CElementUtils.java:46-47 | both keys hold the id afterwards, every other key keeps its value, and the keys stay distinct |
| W3CElementUtils.AttachExtract | app/src/main/java/io/appium/uiautomator2/utils/w3c/W3CElementUtils.java:31-48 | extracting after attaching always finds a string, and finds the attached id unless the object already held another case variant of an id key with a string value |
| W3CElementUtils.AttachFreshExtract | app/src/main/java/io/appium/uiautomator2/utils/w3c/W3CElementUtils.java:31-48 | attaching to a fresh object and extracting gives back the id |
| Common.Intersect | app/src/main/java/io/appium/uiautomator2/core/AccessibilityNodeInfoHelper.java:49 | Rect.intersect as the Android API documents it: on overlap the points covered are exactly those of both rectangles, and otherwise the receiver is unchanged |
| Common.IntersectIdempotent | app/src/main/java/io/appium/uiautomator2/core/AccessibilityNodeInfoHelper.java:49 | intersecting again with the same rectangle changes nothing |
| Common.Trim | app/src/main/java/io/appium/uiautomator2/model/Session.java:72 | String.trim, which drops leading and trailing characters at or below U+0020 |
| Common.Split | app/src/main/java/io/appium/uiautomator2/model/Session.java:74 | String.split on one character: a string without the separator is its own piece; otherwise the pieces between separators with the trailing empty ones dropped, none containing the separator |
| Common.JoinPieces | app/src/main/java/io/appium/uiautomator2/model/Session.java:74 | joining the pieces with the separator gives back the string, so no character is lost by the split |
| Common.ToInt32 | app/src/main/java/io/appium/uiautomator2/utils/JSONUtils.java:46 | Long.intValue: an int congruent to the long modulo 2^32, and the long itself when it fits |
| Common.NatToStringInjective | app/src/main/java/io/appium/uiautomator2/core/AccessibilityNodeInfoDumper.java:133-135 | distinct numbers have distinct decimal strings |
| Common.ParseInt | app/src/main/java/io/appium/uiautomator2/utils/JSONUtils.java:48 | Integer.parseInt: an int when there is a result, and nothing for the empty string |
| Common.ParseIntToString | app/src/main/java/io/appium/uiautomator2/utils/JSONUtils.java:48 | parsing the decimal string of an int gives back that int |
| Json.Get | app/src/main/java/io/appium/uiautomator2/utils/w3c/W3CElementUtils.java:37-38 | JSONObject.opt: nothing exactly when the key is absent, and otherwise the value of a member with that key |
| Json.Update | app/src/main/java/io/appium/uiautomator2/utils/w3c/W3CElementUtils.java:46-47 | JSONObject.put: the keys are unchanged when the key was present and gain it at the end otherwise; distinct keys stay distinct |
| Json.GetUpdate | app/src/main/java/io/appium/uiautomator2/utils/w3c/W3CElementUtils.java:46-47 | after a put the key holds the new value, and every other key keeps its old value |
| Json.UpdateAppends | app/src/main/java/io/appium/uiautomator2/utils/w3c/W3CElementUtils.java:46-47 | putting a key not yet present appends it as the last member |
| Json.JsonObject.Put | app/src/main/java/io/appium/uiautomator2/utils/w3c/W3CElementUtils.java:46-47 | the object's members become Update of the old members |
| Json.ValueOf | app/src/main/java/io/appium/uiautomator2/model/Session.java:67 | String.valueOf of a JSON value: a string is itself, and a boolean's text is "true" exactly when it is true |
| AccessibilityNodeInfoDumper.ToXmlNodeNameGood | app/src/main/java/io/appium/uiautomator2/core/AccessibilityNodeInfoDumper.java:92-109 | a null or blank class name becomes `android.view.View`; any other is rewritten (`$@#&` to dots, runs of dots collapsed, edge dots dropped, then made a legal node name) and the result is always a legal, non-blank XML node name |
| AccessibilityNodeInfoDumper.AttributeNameReserved | app/src/main/java/io/appium/uiautomator2/core/AccessibilityNodeInfoDumper.java:60-135 | no element attribute is named `uiElementIndex` or `rotation`, so the serializer's own attributes never clash with the element's |
| AccessibilityNodeInfoDumper.SafeXmlLegal | app/src/main/java/io/appium/uiautomator2/core/AccessibilityNodeInfoDumper.java:61-124 | an attribute value after replacing non-XML characters by `?` holds only legal XML characters |
| AccessibilityNodeInfoDumper.AttrEventsPlain | app/src/main/java/io/appium/uiautomator2/core/AccessibilityNodeInfoDumper.java:116-125 | every attribute the element loop writes is an exposable element attribute with a legal value and a non-reserved name |
| AccessibilityNodeInfoDumper.MappedPreorder | app/src/main/java/io/appium/uiautomator2/core/AccessibilityNodeInfoDumper.java:132-145 | the elements the mapping records for a subtree, in pre-order, begin with the subtree's root |
| AccessibilityNodeInfoDumper.SerNested | app/src/main/java/io/appium/uiautomator2/core/AccessibilityNodeInfoDumper.java:111-147 | serializing any element closes every tag it opens, in order, and never writes an attribute outside a start tag |
| AccessibilityNodeInfoDumper.DocumentWellNested | app/src/main/java/io/appium/uiautomator2/core/AccessibilityNodeInfoDumper.java:161 | the whole dumped tree is a well-nested document |
| AccessibilityNodeInfoDumper.Numerals | app/src/main/java/io/appium/uiautomator2/core/AccessibilityNodeInfoDumper.java:133-135 | the decimal numerals base, base+1, ... that the index attribute takes, one per position |
| AccessibilityNodeInfoDumper.SerIndexSplit | app/src/main/java/io/appium/uiautomator2/core/AccessibilityNodeInfoDumper.java:132-136 | an element's own index is written before any of its descendants' |
| AccessibilityNodeInfoDumper.SerIndices | app/src/main/java/io/appium/uiautomator2/core/AccessibilityNodeInfoDumper.java:132-136 | with a mapping, the `uiElementIndex` values of a serialized subtree are exactly base, base+1, ..., in document order, one per element the mapping records |
| AccessibilityNodeInfoDumper.DepthCut | app/src/main/java/io/appium/uiautomator2/core/AccessibilityNodeInfoDumper.java:138-145 | at depth 70 or deeper an element is written alone, one tag and no children, and the mapping records that element only |
| AccessibilityNodeInfoDumper.SerDisplayOnce | app/src/main/java/io/appium/uiautomator2/core/AccessibilityNodeInfoDumper.java:126-130 | the display info is written exactly once when the flag is set (on the root) and never when it is not |
| AccessibilityNodeInfoDumper.MatchesFrom | app/src/main/java/io/appium/uiautomator2/core/AccessibilityNodeInfoDumper.java:219-229 | the nodes the matched index values select: at most one unless `multiple`, and every one the node of a recorded element |
| AccessibilityNodeInfoDumper.MatchStep | app/src/main/java/io/appium/uiautomator2/core/AccessibilityNodeInfoDumper.java:219-229 | one loop value: a non-number fails with a number-format error, an unknown index or a node-less element is skipped, a match ends the search unless `multiple` |
| AccessibilityNodeInfoDumper.Resolve | app/src/main/java/io/appium/uiautomator2/core/AccessibilityNodeInfoDumper.java:218-230 | the findNodes loop computes exactly MatchesFrom of the values from the start |
| AccessibilityNodeInfoDumper.MatchesOfNumerals | app/src/main/java/io/appium/uiautomator2/core/AccessibilityNodeInfoDumper.java:220 | values that are all index numerals of recorded elements never make the lookup fail |
| AccessibilityNodeInfoDumper.DocumentIndicesResolve | app/src/main/java/io/appium/uiautomator2/core/AccessibilityNodeInfoDumper.java:214-220 | the document findNodes writes numbers its elements 0, 1, ... in mapping order, and any selection of those index values resolves without error |
| AccessibilityNodeInfoDumper.Dumper.constructor | app/src/main/java/io/appium/uiautomator2/core/AccessibilityNodeInfoDumper.java:75-81 | a dumper holds the given root (or none), no mapping and the display flag cleared |
| AccessibilityNodeInfoDumper.Dumper.WriteAttributes | app/src/main/java/io/appium/uiautomator2/core/AccessibilityNodeInfoDumper.java:116-125 | appends the element's attribute events and changes neither the mapping nor the display flag |
| AccessibilityNodeInfoDumper.Dumper.WriteExtras | app/src/main/java/io/appium/uiautomator2/core/AccessibilityNodeInfoDumper.java:126-136 | appends the display info if the flag was set, then clears it; with a mapping, records the element under the next index and writes that index |
| AccessibilityNodeInfoDumper.Dumper.SerializeUiElement | app/src/main/java/io/appium/uiautomator2/core/AccessibilityNodeInfoDumper.java:111-147 | appends exactly the specified serialization of the element and extends the mapping by the subtree's pre-order; the display flag ends cleared |
| AccessibilityNodeInfoDumper.Dumper.SerializeChildren | app/src/main/java/io/appium/uiautomator2/core/AccessibilityNodeInfoDumper.java:142-144 | the child loop appends the children's serializations in order and records their subtrees in the mapping |
| AccessibilityNodeInfoDumper.Dumper.SerializeChild | app/src/main/java/io/appium/uiautomator2/core/AccessibilityNodeInfoDumper.java:142-144 | one child step extends the output and the mapping by that child's subtree |
| AccessibilityNodeInfoDumper.Dumper.ToFile | app/src/main/java/io/appium/uiautomator2/core/AccessibilityNodeInfoDumper.java:149-168 | the output is the serialization of the rebuilt root (the active window with toasts when no root was given, display info only then) and the cache holds the rebuilt tree; a rebuild that throws IllegalArgumentException ends it with nothing serialized and the mapping untouched |
| AccessibilityNodeInfoDumper.Dumper.PerformCleanup | app/src/main/java/io/appium/uiautomator2/core/AccessibilityNodeInfoDumper.java:170-176 | the mapping is dropped and nothing else changes |
| AccessibilityNodeInfoDumper.Dumper.DumpToXml | app/src/main/java/io/appium/uiautomator2/core/AccessibilityNodeInfoDumper.java:178-199 | returns that document, or the rebuild's IllegalArgumentException, and leaves no mapping behind either way |
| AccessibilityNodeInfoDumper.Dumper.FindNodes | app/src/main/java/io/appium/uiautomator2/core/AccessibilityNodeInfoDumper.java:201-237 | an uncompilable selector is refused with nothing changed; a rebuild that throws is passed on as IllegalArgument; otherwise the document is written with elements numbered from 0 and the result is MatchesFrom over the selected index values; the mapping is dropped afterwards in every case |
| XMLHelpers.SafeXml | app/src/main/java/io/appium/uiautomator2/utils/XMLHelpers.java:27-56 | each character outside the XML 1.0 legal ranges is replaced: a legal string is unchanged, a legal replacement gives a legal result, no new characters appear, and a one-character replacement keeps the length |
| XMLHelpers.ToSafeXmlString | app/src/main/java/io/appium/uiautomator2/utils/XMLHelpers.java:54-57 | null stays null and only null; a legal string is returned unchanged; with a legal replacement the result is legal |
| XMLHelpers.ReplaceRenamed | app/src/main/java/io/appium/uiautomator2/utils/XMLHelpers.java:39 | each of `$ @ # &` becomes a dot, every other character is kept in place |
| XMLHelpers.Remove | app/src/main/java/io/appium/uiautomator2/utils/XMLHelpers.java:41-45 | the removal leaves none of the dropped characters, adds nothing, and changes nothing when there is nothing to drop |
| XMLHelpers.CollapseDots | app/src/main/java/io/appium/uiautomator2/utils/XMLHelpers.java:46 | the result has no two adjacent dots, keeps the non-dot characters in order and whether it starts or ends with a dot, and is the input when that had no run of dots |
| XMLHelpers.StripLeading | app/src/main/java/io/appium/uiautomator2/utils/XMLHelpers.java:47 | a leading dot is removed, anything else is untouched |
| XMLHelpers.StripTrailing | app/src/main/java/io/appium/uiautomator2/utils/XMLHelpers.java:47 | a final dot, or a dot just before a final line terminator (where Java's `$` also matches), is removed; otherwise the string is untouched |
| XMLHelpers.StripEdgeDots | app/src/main/java/io/appium/uiautomator2/utils/XMLHelpers.java:47 | the leading-or-trailing dot removal keeps the non-dot characters, and on a collapsed name leaves no edge dot and no run of dots |
| XMLHelpers.ToNodeName | app/src/main/java/io/appium/uiautomator2/utils/XMLHelpers.java:33-52 | a null or blank class name, or one that rewrites to a blank name, becomes `android.view.View` |
| XMLHelpers.DefaultNameGood | app/src/main/java/io/appium/uiautomator2/utils/XMLHelpers.java:31 | the default class name is itself a legal node name |
| XMLHelpers.NodeNameGood | app/src/main/java/io/appium/uiautomator2/utils/XMLHelpers.java:33-52 | every result of toNodeName holds no renamed, removed, `?` or illegal character, has no run of dots, does not start or end with a dot and is not blank |
| XMLHelpers.NodeNameFixpoint | app/src/main/java/io/appium/uiautomator2/utils/XMLHelpers.java:38-51 | a name that already meets those rules (without a dot before a final line terminator) is returned unchanged |
| XMLHelpers.NodeNameOfClean | app/src/main/java/io/appium/uiautomator2/utils/XMLHelpers.java:38-51 | a name of only clean characters without double dots becomes its edge-dot strip |
| XMLHelpers.NodeNameNotIdempotent | app/src/main/java/io/appium/uiautomator2/utils/XMLHelpers.java:47 | because `$` also matches before a final line terminator, toNodeName of "a.\u2028." is "a.\u2028" while toNodeName of that is "a\u2028": the rewrite is not idempotent |
| XPathFinder.DropQuestionMarks | app/src/main/java/io/appium/uiautomator2/model/XPathFinder.java:184 | the run of `?` at the head of a string is dropped, leaving a suffix that does not start with `?` |
| XPathFinder.DropDigits | app/src/main/java/io/appium/uiautomator2/model/XPathFinder.java:185 | the run of digits after a `$` is dropped, leaving a suffix that does not start with a digit |
| XPathFinder.UnderscoreRunsNoQuestion | app/src/main/java/io/appium/uiautomator2/model/XPathFinder.java:184 | after every run of `?` becomes one `_`, no `?` is left |
| XPathFinder.UnderscoreRunsFixed | app/src/main/java/io/appium/uiautomator2/model/XPathFinder.java:184 | a string without `?` is unchanged by that step |
| XPathFinder.BareDollarsHead | app/src/main/java/io/appium/uiautomator2/model/XPathFinder.java:185 | replacing `$` plus digits by `$` keeps the first character |
| XPathFinder.BareDollarsKeepsOut | app/src/main/java/io/appium/uiautomator2/model/XPathFinder.java:185 | that step introduces no character other than `$` |
| XPathFinder.BareDollarsNoDollarDigit | app/src/main/java/io/appium/uiautomator2/model/XPathFinder.java:185 | after it no `$` is followed by a digit |
| XPathFinder.BareDollarsFixed | app/src/main/java/io/appium/uiautomator2/model/XPathFinder.java:185 | a string where no `$` is followed by a digit is unchanged by it |
| XPathFinder.TagMeaning | app/src/main/java/io/appium/uiautomator2/model/XPathFinder.java:180-186 | a tag holds no `?` and no `$` followed by a digit |
| XPathFinder.TagFixedPoint | app/src/main/java/io/appium/uiautomator2/model/XPathFinder.java:180-186 | a class name is its own tag exactly when it has no `?` and no `$` followed by a digit |
| XPathFinder.TagIdempotent | app/src/main/java/io/appium/uiautomator2/model/XPathFinder.java:180-186 | taking the tag twice is the same as once |
| XPathFinder.LastIndexOf | app/src/main/java/io/appium/uiautomator2/model/XPathFinder.java:194 | the position of the last occurrence of the character, or -1 exactly when it does not occur |
| XPathFinder.SimpleClassNameMeaning | app/src/main/java/io/appium/uiautomator2/model/XPathFinder.java:191-198 | the simple class name is a prefix of the tag: the whole tag when no `$` occurs after the first character, otherwise the part before the last `$` |
| XPathFinder.UnknownIsOwnName | app/src/main/java/io/appium/uiautomator2/model/XPathFinder.java:82-85 | `UNKNOWN` is its own simple class name |
| XPathFinder.AttributesOf | app/src/main/java/io/appium/uiautomator2/model/XPathFinder.java:98-122 | the DOM attributes: the class name (`UNKNOWN` when null), the string attributes only when present, the selection bounds exactly when the element has a selection, and the element's index in the mapping |
| XPathFinder.Preorder | app/src/main/java/io/appium/uiautomator2/model/XPathFinder.java:86-126 | the elements the mapping records for a subtree start with its root |
| XPathFinder.DomKids | app/src/main/java/io/appium/uiautomator2/model/XPathFinder.java:124-126 | one DOM child per child element |
| XPathFinder.DomPreorder | app/src/main/java/io/appium/uiautomator2/model/XPathFinder.java:124-126 | a DOM element's pre-order starts with it |
| XPathFinder.DomPreorderNumbered | app/src/main/java/io/appium/uiautomator2/model/XPathFinder.java:79-128 | the DOM built from a subtree, in pre-order, is the subtree's elements in pre-order numbered consecutively from the base |
| XPathFinder.DomIndices | app/src/main/java/io/appium/uiautomator2/model/XPathFinder.java:86-122 | the i-th DOM element in document order carries `uiElementIndex` i and was built from the mapping's i-th element |
| XPathFinder.DomBuilder.constructor | app/src/main/java/io/appium/uiautomator2/model/XPathFinder.java:215 | a builder starts with an empty mapping |
| XPathFinder.DomBuilder.ToDomElement | app/src/main/java/io/appium/uiautomator2/model/XPathFinder.java:79-128 | returns the DOM of the element numbered from the mapping's size and appends the subtree's elements in pre-order to the mapping |
| XPathFinder.MappingStep | app/src/main/java/io/appium/uiautomator2/model/XPathFinder.java:124-126 | one child of the loop extends the mapping by that child's pre-order |
| XPathFinder.NamelessIsUnknown | app/src/main/java/io/appium/uiautomator2/model/XPathFinder.java:82-85 | an element without a class name is written to the DOM as `UNKNOWN` |
| XPathFinder.NullClassNameCounterexample | app/src/main/java/io/appium/uiautomator2/model/XPathFinder.java:239 | for the element selected as `UNKNOWN`, find as written fails with a null dereference while the corrected find returns its node |
| XPathFinder.MatchesFromMapping | app/src/main/java/io/appium/uiautomator2/model/XPathFinder.java:227-244 | every match is the node of a recorded element other than the `hierarchy` element, and there are no more matches than selected nodes |
| XPathFinder.MatchesOfOwnIndices | app/src/main/java/io/appium/uiautomator2/model/XPathFinder.java:233-243 | when every selected node is an element carrying the index of a recorded element, find does not fail and returns their nodes in selection order |
| XPathFinder.MatchSkip | app/src/main/java/io/appium/uiautomator2/model/XPathFinder.java:228-236 | a selected node that is not an element, or has no index attribute, is passed over |
| XPathFinder.MatchUnparsed | app/src/main/java/io/appium/uiautomator2/model/XPathFinder.java:237-238 | an index attribute that is not a number makes find fail with a number-format error |
| XPathFinder.MatchIndexed | app/src/main/java/io/appium/uiautomator2/model/XPathFinder.java:237-243 | an index naming no recorded element, or the `hierarchy` element, is passed over; any other adds its element's node |
| XPathFinder.CollectMatches | app/src/main/java/io/appium/uiautomator2/model/XPathFinder.java:227-245 | the loop over the selected nodes computes exactly Matches from the first node, the definition without the null dereference of line 239 |
| XPathFinder.Find | app/src/main/java/io/appium/uiautomator2/model/XPathFinder.java:205-246 | an uncompilable selector fails with InvalidSelector; otherwise the result is Matches, the definition without the null dereference of line 239, over the nodes the XPath engine selects from the DOM of the context |
| XPathFinder.Matches | app/src/main/java/io/appium/uiautomator2/model/XPathFinder.java:227-244 | the matches from a node on: the only failure is NumberFormatException, which happens exactly when some selected element's uiElementIndex is not a number; no more matches than selected nodes |
| XPathFinder.MatchesAsWritten | app/src/main/java/io/appium/uiautomator2/model/XPathFinder.java:227-244 | find as written fails only with NumberFormatException or NullPointerException, and whenever it does not raise the NullPointerException it agrees with Matches |
| UiAutomationElement.AllAttributesListed | app/src/main/java/io/appium/uiautomator2/model/UiAutomationElement.java:65-88 | every attribute appears in the snapshot's attribute list |
| UiAutomationElement.SnapshotAttributeAt | app/src/main/java/io/appium/uiautomator2/model/UiAutomationElement.java:65-89 | an attribute is stored exactly when the node's value for it is not null, and then holds that value (the map is used only for a node whose selection getSelectionRange accepts; see BackwardsSelectionThrows) |
| UiAutomationElement.StringAttributeAt | app/src/main/java/io/appium/uiautomator2/model/UiAutomationElement.java:68-72 | a string attribute is stored exactly when the node's char sequence is not null, as its text |
| UiAutomationElement.SelectionAttributesAt | app/src/main/java/io/appium/uiautomator2/model/UiAutomationElement.java:82-86 | selection start and end are stored exactly when 0 <= start < end, as the range's lower and upper ends; the range is refused (IllegalArgumentException) exactly when start >= 0 and end < start |
| UiAutomationElement.SnapshotAttributesMeaning | app/src/main/java/io/appium/uiautomator2/model/UiAutomationElement.java:60-89 | the snapshot stores its index, each string attribute exactly when it is not null, the selection exactly when getSelectionRange gives a range, and the bounds as the node reports them |
| UiAutomationElement.Run | app/src/main/java/io/appium/uiautomator2/model/UiAutomationElement.java:212 | the number of ancestors the loop visits: those before the first without a node |
| UiAutomationElement.GetVisibleBoundsAsWritten | app/src/main/java/io/appium/uiautomator2/model/UiAutomationElement.java:204-218 | the loop as written: the empty rectangle when invisible, otherwise the bounds intersected once per visited ancestor with the immediate parent's bounds |
| UiAutomationElement.AsWrittenImmediateParentOnly | app/src/main/java/io/appium/uiautomator2/model/UiAutomationElement.java:212-216 | as written, only the immediate parent clips; further ancestors change nothing |
| UiAutomationElement.GetVisibleBounds | app/src/main/java/io/appium/uiautomator2/model/UiAutomationElement.java:204-218 | the corrected loop: the bounds intersected with each visited ancestor's own bounds in turn |
| UiAutomationElement.IntendedFromCovers | app/src/main/java/io/appium/uiautomator2/model/UiAutomationElement.java:212-216 | from any point of the loop, a point lies in the result exactly when it lies in the rectangle so far and in every remaining visited ancestor (given a common point) |
| UiAutomationElement.VisibleBoundsClipsAllAncestors | app/src/main/java/io/appium/uiautomator2/model/UiAutomationElement.java:204-218 | for a visible element sharing a point with its ancestors, a point is in the visible bounds exactly when it is in the element and in every ancestor that has a node |
| UiAutomationElement.VisibleBoundsCounterexample | app/src/main/java/io/appium/uiautomator2/model/UiAutomationElement.java:213 | a 100x100 element under a same-size parent and a 50x50 grandparent: as written the visible bounds stay 100x100, the corrected ones are 50x50 |
| UiAutomationElement.KeptPositions | app/src/main/java/io/appium/uiautomator2/model/UiAutomationElement.java:187-193 | the raw positions of the kept children: exactly those below n whose child is not null and is visible or invisible elements are allowed, in increasing order |
| UiAutomationElement.SnapChildrenMeaning | app/src/main/java/io/appium/uiautomator2/model/UiAutomationElement.java:177-196 | the snapshot's children are exactly the kept raw children, in raw order, each built with its raw position as index |
| UiAutomationElement.ChildlessSnapshot | app/src/main/java/io/appium/uiautomator2/model/UiAutomationElement.java:180-229 | a node without children gets a null list, which getChildren reports as empty |
| UiAutomationElement.ChildIndexIsRawPosition | app/src/main/java/io/appium/uiautomator2/model/UiAutomationElement.java:187-191 | the j-th kept child carries INDEX equal to its raw position, not j |
| UiAutomationElement.ChildIdsMono | app/src/main/java/io/appium/uiautomator2/model/UiAutomationElement.java:187-193 | the identities under the first n children grow with n |
| UiAutomationElement.ChildIdsDisjoint | app/src/main/java/io/appium/uiautomator2/model/UiAutomationElement.java:187-193 | in a tree of distinct nodes a later child's subtree shares no identity with the earlier children's |
| UiAutomationElement.BackwardsSelectionThrows | app/src/main/java/io/appium/uiautomator2/model/UiAutomationElement.java:82 | a node whose selection start is not negative and lies after its end makes the constructor throw IllegalArgumentException, with nothing built and the cache unchanged |
| UiAutomationElement.BuildChildrenErrorSticks | app/src/main/java/io/appium/uiautomator2/model/UiAutomationElement.java:187-193 | once a child's construction has thrown, the remaining children change neither the outcome nor the cache |
| UiAutomationElement.BuildChildrenNoHit | app/src/main/java/io/appium/uiautomator2/model/UiAutomationElement.java:177-196 | when no node below is cached, building children through the cache throws exactly when a kept child's subtree holds a backwards selection, otherwise gives the plain snapshot children, and caches only their identities |
| UiAutomationElement.BuildNoHit | app/src/main/java/io/appium/uiautomator2/model/UiAutomationElement.java:60-96 | likewise for an element built by the constructor: IllegalArgumentException exactly when the tree it reaches is refused, else its snapshot |
| UiAutomationElement.GetOrCreateNoHit | app/src/main/java/io/appium/uiautomator2/model/UiAutomationElement.java:147-155 | likewise for getOrCreateElement |
| UiAutomationElement.BuildIsSnapshot | app/src/main/java/io/appium/uiautomator2/model/UiAutomationElement.java:60-96 | with nothing of the subtree cached, the constructor throws exactly when the node or a kept descendant has a backwards selection, and otherwise the element is its snapshot; the node itself is not added to the cache by its own constructor |
| UiAutomationElement.ToastChildren | app/src/main/java/io/appium/uiautomator2/model/UiAutomationElement.java:129-133 | one toast element per message |
| UiAutomationElement.ToastChildrenSnoc | app/src/main/java/io/appium/uiautomator2/model/UiAutomationElement.java:130-133 | one more message adds its toast element at the end |
| UiAutomationElement.ToastElement | app/src/main/java/io/appium/uiautomator2/model/UiAutomationElement.java:168-175 | a toast child is an invisible, childless element of class `android.widget.Toast` whose text is the message |
| UiAutomationElement.HierarchyAttributesMeaning | app/src/main/java/io/appium/uiautomator2/model/UiAutomationElement.java:98-116 | the synthetic root stores its index, its class and false for every flag |
| UiAutomationElement.RootShape | app/src/main/java/io/appium/uiautomator2/model/UiAutomationElement.java:98-136 | the rebuild throws exactly when building the window root does; otherwise the root has class `hierarchy`, no node and no visible bounds, the window root as first child at index 0, then one Toast child per message |
| UiAutomationElement.RootWindowIsSnapshot | app/src/main/java/io/appium/uiautomator2/model/UiAutomationElement.java:120-128 | on a tree of distinct nodes the rebuild throws exactly when the window tree is refused, the root's first child is otherwise the window root's snapshot, and the window root is never cached itself |
| UiAutomationElement.ElementCache.constructor | app/src/main/java/io/appium/uiautomator2/model/UiAutomationElement.java:46 | the cache starts empty |
| UiAutomationElement.ElementCache.NewElement | app/src/main/java/io/appium/uiautomator2/model/UiAutomationElement.java:60-96 | a backwards selection throws IllegalArgumentException before any child is built; otherwise the element and the cache are exactly as Build specifies, a child that throws ending the construction, with the visible bounds clipped by every ancestor (the corrected getVisibleBounds) |
| UiAutomationElement.ElementCache.BuildChildrenOf | app/src/main/java/io/appium/uiautomator2/model/UiAutomationElement.java:177-196 | a node without children gives the null list with the cache untouched; otherwise the loop's list, its exception and the cache are BuildChildren's, the first child that throws ending the loop |
| UiAutomationElement.ElementCache.GetOrCreateElement | app/src/main/java/io/appium/uiautomator2/model/UiAutomationElement.java:147-155 | a cached node gives its cached element and changes nothing; any other is built and, unless its construction throws, cached under its identity |
| UiAutomationElement.ElementCache.RebuildForNewRoot | app/src/main/java/io/appium/uiautomator2/model/UiAutomationElement.java:124-136 | the cache is cleared, then the outcome and the new cache are RootSpec's: the hierarchy root over the window root, then the toasts, or the window's IllegalArgumentException |
| UiAutomationElement.ElementCache.AddToastMsgToRoot | app/src/main/java/io/appium/uiautomator2/model/UiAutomationElement.java:168-175 | the toast element for the message, with the cache untouched |
| UiAutomationElement.ElementCache.GetCachedElement | app/src/main/java/io/appium/uiautomator2/model/UiAutomationElement.java:138-145 | a cached node is returned directly with nothing changed; otherwise the tree is rebuilt from the window root, an exception of the rebuild is passed on, and the node is looked up in the new cache (null when absent) |
| AccessibilityNodeInfoHelpers.GetSelectionRange | app/src/main/java/io/appium/uiautomator2/core/AccessibilityNodeInfoHelpers.java:42-54 | null for a null node; otherwise the range (start, end) exactly when start >= 0 and start < end, null exactly when start < 0 or start == end, and the Range constructor's refusal exactly when start > end >= 0 |
| AccessibilityNodeInfoHelpers.GetPackageName | app/src/main/java/io/appium/uiautomator2/core/AccessibilityNodeInfoHelpers.java:56-59 | null for a null node, otherwise the node's package name |
| AccessibilityNodeInfoHelpers.IsPassword | app/src/main/java/io/appium/uiautomator2/core/AccessibilityNodeInfoHelpers.java:61-63 | true exactly for a non-null password node |
| AccessibilityNodeInfoHelpers.IsVisible | app/src/main/java/io/appium/uiautomator2/core/AccessibilityNodeInfoHelpers.java:65-67 | true exactly for a non-null node visible to the user |
| AccessibilityNodeInfoHelpers.CharSequenceToString | app/src/main/java/io/appium/uiautomator2/core/AccessibilityNodeInfoHelpers.java:78 | a text is kept; a null text is "" when nulls are replaced and null otherwise |
| AccessibilityNodeInfoHelpers.GetText | app/src/main/java/io/appium/uiautomator2/core/AccessibilityNodeInfoHelpers.java:69-79 | a null node gives "" or null by the flag; range info wins over the text; otherwise the node's text; never null when nulls are replaced |
| AccessibilityNodeInfoHelpers.FirstScrollable | app/src/main/java/io/appium/uiautomator2/core/AccessibilityNodeInfoHelpers.java:112-121 | the first scrollable ancestor the loop reaches before the depth limit of 70, with every ancestor before it not scrollable; none exactly when no ancestor in reach is scrollable |
| AccessibilityNodeInfoHelpers.GetVisibleBounds | app/src/main/java/io/appium/uiautomator2/core/AccessibilityNodeInfoHelpers.java:81-89 | null exactly for a null node; a node without ancestors gets its bounds clipped to the screen |
| AccessibilityNodeInfoHelpers.VisibleBounds | app/src/main/java/io/appium/uiautomator2/core/AccessibilityNodeInfoHelpers.java:96-124 | the loop computes the node's bounds clipped to the screen and then to the visible bounds of the first scrollable ancestor within the depth limit |
| AccessibilityNodeInfoHelpers.VisibleBoundsInside | app/src/main/java/io/appium/uiautomator2/core/AccessibilityNodeInfoHelpers.java:102-109 | every point of the visible bounds lies in the node's bounds, and on the screen when the node overlaps it |
| AccessibilityNodeInfoHelpers.NoScrollableAncestor | app/src/main/java/io/appium/uiautomator2/core/AccessibilityNodeInfoHelpers.java:108-123 | with no scrollable ancestor the result is the node's bounds clipped to the screen |
| AccessibilityNodeInfoHelpers.Reach | app/src/main/java/io/appium/uiautomator2/core/AccessibilityNodeInfoHelpers.java:40-112 | how many ancestors the loop can look at from a depth: at most the chain's length |
| AccessibilityNodeInfoHelpers.VisibleBoundsDepthBound | app/src/main/java/io/appium/uiautomator2/core/AccessibilityNodeInfoHelpers.java:40-112 | ancestors beyond the depth limit never affect the result, however long the parent chain is |
| AccessibilityNodeInfoHelpers.ClippedAtScrollable | app/src/main/java/io/appium/uiautomator2/core/AccessibilityNodeInfoHelpers.java:114-119 | at the first scrollable ancestor the result is the screen-clipped bounds intersected with that ancestor's visible bounds, one depth further |
| AccessibilityNodeInfoHelpers.ClippedAtNone | app/src/main/java/io/appium/uiautomator2/core/AccessibilityNodeInfoHelpers.java:108-123 | when no ancestor in reach is scrollable the result is the screen-clipped bounds |
| AccessibilityNodeInfoHelpers.SetProgressValue | app/src/main/java/io/appium/uiautomator2/core/AccessibilityNodeInfoHelpers.java:133-143 | false whenever ACTION_SET_PROGRESS is not supported; otherwise the outcome of performing it |
| AccessibilityNodeInfoHelpers.TruncateTextToMaxLength | app/src/main/java/io/appium/uiautomator2/core/AccessibilityNodeInfoHelpers.java:151-160 | the result is a prefix of the text, of length min(text, maximum) when the maximum is positive and the whole text otherwise |
| LocationHelpers.PackageRun | app/src/main/java/io/appium/uiautomator2/utils/LocationHelpers.java:54-55 | the longest prefix of `[a-zA-Z0-9._]` characters: all inside are package characters and the next one is not |
| LocationHelpers.IndexOf | app/src/main/java/io/appium/uiautomator2/utils/LocationHelpers.java:54-55 | the first occurrence of the character, or the length when it does not occur |
| LocationHelpers.IsResourceIdMeaning | app/src/main/java/io/appium/uiautomator2/utils/LocationHelpers.java:39-55 | the resource-id test accepts exactly the strings `package:type/name` with a Java package, a type without `/` and a name without whitespace |
| LocationHelpers.IsResourceIdSound | app/src/main/java/io/appium/uiautomator2/utils/LocationHelpers.java:54-55 | every accepted string splits into such a package, type and name |
| LocationHelpers.IsResourceIdComplete | app/src/main/java/io/appium/uiautomator2/utils/LocationHelpers.java:54-55 | every such package, type and name joined is accepted |
| LocationHelpers.RewriteIdLocator | app/src/main/java/io/appium/uiautomator2/utils/LocationHelpers.java:57-69 | a fully qualified resource id is kept; anything else is prefixed with the appPackage capability (the text `null` when it is absent) and `:id/` |
| LocationHelpers.RewriteIdLocatorQualifies | app/src/main/java/io/appium/uiautomator2/utils/LocationHelpers.java:57-69 | with a package capability, a bare name becomes a qualified id, and rewriting it again changes nothing |
| LocationHelpers.DocumentedExample | app/src/main/java/io/appium/uiautomator2/utils/LocationHelpers.java:40-42 | `com.example.Test:id/enter` is a fully qualified resource id |
| LocationHelpers.ToSelector | app/src/main/java/io/appium/uiautomator2/utils/LocationHelpers.java:85-90 | a parse error passes through; otherwise the first selector, null exactly when the parser produced none |
| SelectorStrings.DropTrailingDigits | app/src/main/java/io/appium/uiautomator2/handler/FindElements.java:58 | the string without its trailing run of digits: a prefix, the rest all digits, and not ending in a digit |
| SelectorStrings.EndsWithInstanceMeaning | app/src/main/java/io/appium/uiautomator2/handler/FindElements.java:58 | the `.*INSTANCE=\d+]$` test holds exactly for a prefix without line terminators, `INSTANCE=`, one or more digits and `]` |
| SelectorStrings.InstanceSuffix | app/src/main/java/io/appium/uiautomator2/handler/FindElements.java:192-196 | a selector string ending in `INSTANCE=n]` for any number n matches |
| SelectorStrings.NoInstanceExample | app/src/main/java/io/appium/uiautomator2/handler/FindElements.java:58 | `UiSelector[CLASS=android.widget.Button]` does not match |
| ElementHelpers.NodesOf | app/src/main/java/io/appium/uiautomator2/utils/ElementHelpers.java:76-77 | the node of each element, position by position |
| ElementHelpers.DedupeStep | app/src/main/java/io/appium/uiautomator2/utils/ElementHelpers.java:76-82 | one loop step: the element is kept exactly when its node is not among the nodes kept so far |
| ElementHelpers.Dedupe | app/src/main/java/io/appium/uiautomator2/utils/ElementHelpers.java:66-85 | the loop returns exactly the elements whose node no earlier element had, in order |
| ElementHelpers.DedupeKeptIndices | app/src/main/java/io/appium/uiautomator2/utils/ElementHelpers.java:66-85 | the result is a subsequence of the input: its elements sit at strictly rising input positions |
| ElementHelpers.DedupeKeptFirst | app/src/main/java/io/appium/uiautomator2/utils/ElementHelpers.java:78-81 | an input position is kept exactly when no earlier element has the same node |
| ElementHelpers.DedupeCovers | app/src/main/java/io/appium/uiautomator2/utils/ElementHelpers.java:66-85 | every node of the input is the node of a kept element, and the kept elements' nodes are pairwise distinct |
| ElementHelpers.DedupeDistinct | app/src/main/java/io/appium/uiautomator2/utils/ElementHelpers.java:66-85 | a list with pairwise distinct nodes is returned whole |
| ElementHelpers.DedupeIdempotent | app/src/main/java/io/appium/uiautomator2/utils/ElementHelpers.java:66-85 | removing duplicates twice is the same as once |
| ElementHelpers.Nullable | app/src/main/java/io/appium/uiautomator2/utils/ElementHelpers.java:123-129 | a null value is put as JSON null, any other as itself |
| ElementHelpers.FieldValue | app/src/main/java/io/appium/uiautomator2/utils/ElementHelpers.java:98-118 | `name` is the content description, `text` the text, `enabled`/`displayed`/`selected` and `attribute/x` the attribute value; reflective and missing-attribute failures skip the field, other failures propagate, unknown fields are skipped |
| ElementHelpers.PutFieldsStep | app/src/main/java/io/appium/uiautomator2/utils/ElementHelpers.java:98-119 | one field of the loop: a failure ends it, a skipped field adds nothing, a put field updates that key |
| ElementHelpers.ToJson | app/src/main/java/io/appium/uiautomator2/utils/ElementHelpers.java:92-121 | succeeds exactly when the specified field loop does, and then returns that JSON object, otherwise its error |
| ElementHelpers.PutFieldsKeepsElement | app/src/main/java/io/appium/uiautomator2/utils/ElementHelpers.java:94-119 | no requested field can overwrite the element id under ELEMENT |
| ElementHelpers.PutFieldsKeys | app/src/main/java/io/appium/uiautomator2/utils/ElementHelpers.java:98-119 | a requested field the dispatch ignores never becomes a key |
| ElementHelpers.ToJsonShape | app/src/main/java/io/appium/uiautomator2/utils/ElementHelpers.java:92-121 | the id is always under ELEMENT, an ignored field never appears, and in compact mode ELEMENT is the only key |
| ElementHelpers.ToJsonSpecFields | app/src/main/java/io/appium/uiautomator2/utils/ElementHelpers.java:93-98 | outside compact mode the requested fields are put, in order, after an object holding only ELEMENT |
| ElementHelpers.PutTwoFresh | app/src/main/java/io/appium/uiautomator2/utils/ElementHelpers.java:98-119 | two distinct fields that are not yet keys are appended in order |
| ElementHelpers.PutTwoAfterElement | app/src/main/java/io/appium/uiautomator2/utils/ElementHelpers.java:93-119 | two distinct put fields other than ELEMENT follow it in the order requested |
| ElementHelpers.ToJsonNameAndText | app/src/main/java/io/appium/uiautomator2/utils/ElementHelpers.java:100-103 | requesting `name` and `text` gives ELEMENT, then the content description, then the text, null as JSON null |
| ElementHelpers.PrepareText | app/src/main/java/io/appium/uiautomator2/utils/ElementHelpers.java:171-179 | from API 24 a text that needs no encoding is sent as is; below API 24 without a Unicode keyboard it is truncated to the node's maximum length |
| ElementHelpers.SetText | app/src/main/java/io/appium/uiautomator2/utils/ElementHelpers.java:139-185 | fails exactly when the node cannot be found, with ElementNotFound; answers without sending text only when the progress action was supported and performed |
| ElementHelpers.SetTextNullCounterexample | app/src/main/java/io/appium/uiautomator2/utils/ElementHelpers.java:153-161 | on a range element from API 24, setText(null) as written throws NullPointerException, while the corrected setText clears the field |
| ElementHelpers.SetTextNullClears | app/src/main/java/io/appium/uiautomator2/utils/ElementHelpers.java:141-142 | in the corrected setText, null text is the same as "" on every node and device, and for non-null text it agrees with the code as written |
| ElementHelpers.SetTextAsWritten | app/src/main/java/io/appium/uiautomator2/utils/ElementHelpers.java:139-185 | setText as written raises a NullPointerException exactly for null text on a range element from API 24, and otherwise agrees with SetText |
| FindElementsHandler.PrefixedAppend | app/src/main/java/io/appium/uiautomator2/handler/FindElements.java:170 | putting found objects in front of a list composes, and an empty front changes nothing |
| FindElementsHandler.FetchElements | app/src/main/java/io/appium/uiautomator2/handler/FindElements.java:182-240 | the probing loop answers exactly the specified fetch: with an instance suffix the single existing object or none; otherwise the probes from counter 0 until the first miss, by child of the base element, by index or by instance |
| FindElementsHandler.FetchFromMeaning | app/src/main/java/io/appium/uiautomator2/handler/FindElements.java:213-238 | the answer is a run of hits from the counter ended by a miss, or the exception of the first probe that throws after a run of hits |
| FindElementsHandler.FetchFromRun | app/src/main/java/io/appium/uiautomator2/handler/FindElements.java:213-238 | conversely, any run of hits ended by a miss is exactly what probing answers |
| FindElementsHandler.FetchSpecPrefix | app/src/main/java/io/appium/uiautomator2/handler/FindElements.java:186-238 | without an instance suffix and with the cache answering, fetchElements answers a list exactly when it is the run of hits from 0 |
| FindElementsHandler.FetchInstanceAtMostOne | app/src/main/java/io/appium/uiautomator2/handler/FindElements.java:199-207 | a selector ending in an instance yields at most one object, none exactly when it does not exist |
| FindElementsHandler.Fetches | app/src/main/java/io/appium/uiautomator2/handler/FindElements.java:164-174 | the fetch for each selector, in order |
| FindElementsHandler.GetUiObjectsUsingAutomator | app/src/main/java/io/appium/uiautomator2/handler/FindElements.java:161-177 | the selector loop answers exactly the collected objects without duplicates, or the exception that stopped it |
| FindElementsHandler.CollectStep | app/src/main/java/io/appium/uiautomator2/handler/FindElements.java:167-173 | one turn: a fetch that answers adds its objects, a UiObjectNotFoundException adds nothing |
| FindElementsHandler.CollectStops | app/src/main/java/io/appium/uiautomator2/handler/FindElements.java:167-173 | any other exception ends the loop with that exception |
| FindElementsHandler.CollectCovers | app/src/main/java/io/appium/uiautomator2/handler/FindElements.java:164-174 | every object a fetch found is collected |
| FindElementsHandler.CollectSound | app/src/main/java/io/appium/uiautomator2/handler/FindElements.java:164-174 | every collected object was found by some fetch |
| FindElementsHandler.CollectFailure | app/src/main/java/io/appium/uiautomator2/handler/FindElements.java:164-174 | a failed collection is the exception of one fetch, never UiObjectNotFoundException |
| FindElementsHandler.AutomatorMeaning | app/src/main/java/io/appium/uiautomator2/handler/FindElements.java:161-177 | the answered objects were each found by some selector, no two share an accessibility node, and every found object's node is among theirs |
| FindElementsHandler.AutomatorFailure | app/src/main/java/io/appium/uiautomator2/handler/FindElements.java:161-177 | a failure is the exception some selector's fetch threw, and not UiObjectNotFoundException |
| FindElementsHandler.FindObjects | app/src/main/java/io/appium/uiautomator2/handler/FindElements.java:104-156 | the search computes exactly the specified one: an unknown context is ElementNotFound; by id (rewritten), accessibility id, class, XPath (empty on no match) or UiAutomator from the context or the whole screen; any other locator is UnsupportedOperation |
| FindElementsHandler.XPathNoMatch | app/src/main/java/io/appium/uiautomator2/handler/FindElements.java:117-149 | an XPath that matches nothing finds nothing, with or without a context |
| FindElementsHandler.UnknownContext | app/src/main/java/io/appium/uiautomator2/handler/FindElements.java:133-136 | a context id the cache does not know is ElementNotFound, whatever the locator |
| FindElementsHandler.Handles | app/src/main/java/io/appium/uiautomator2/handler/FindElements.java:85-87 | one handle per found object, in order, with the i-th random id, the locator, no single-match flag and no context |
| FindElementsHandler.Pick | app/src/main/java/io/appium/uiautomator2/handler/FindElements.java:75 | the locator pickFrom makes, never a UiAutomator one, or its UiAutomator2Exception for an unknown strategy |
| FindElementsHandler.EncodeAll | app/src/main/java/io/appium/uiautomator2/handler/FindElements.java:85-91 | each handle is added to the cache and turned into JSON in order, up to the first toJSON that throws; the cache only gains these handles |
| FindElementsHandler.SafeHandle | app/src/main/java/io/appium/uiautomator2/handler/FindElements.java:64-102 | answers exactly the specified response: the JSON array of the found elements, an empty or partial array on ElementNotFound, any other exception raised; every cached handle is one of those found |
| FindElementsHandler.EncodeMeaning | app/src/main/java/io/appium/uiautomator2/handler/FindElements.java:85-91 | each JSON made is toJSON of the handle at the same place, and it stops short only at a handle whose toJSON throws |
| FindElementsHandler.AnswerOrder | app/src/main/java/io/appium/uiautomator2/handler/FindElements.java:85-92 | an answered array holds the handles' JSON in found order |
| FindElementsHandler.AnswerComplete | app/src/main/java/io/appium/uiautomator2/handler/FindElements.java:85-92 | when toJSON succeeds on every handle the array reaches all of them |
| FindElementsHandler.AnswerSearchFailure | app/src/main/java/io/appium/uiautomator2/handler/FindElements.java:93-98 | an ElementNotFoundException from the search answers an empty array; any other exception is raised |
| FindElementsHandler.HandleUnknownContextEmpty | app/src/main/java/io/appium/uiautomator2/handler/FindElements.java:79-136 | a context id the cache does not know answers an empty array |
| FindElementsHandler.HandleUnsupported | app/src/main/java/io/appium/uiautomator2/handler/FindElements.java:75-155 | the name, link text, partial link text and css strategies are refused with UnsupportedOperationException whenever the search starts |
| UpdateSettingsHandler.Lookup | app/src/main/java/io/appium/uiautomator2/handler/UpdateSettings.java:57-64 | the registry entry found for a name carries exactly that name |
| UpdateSettingsHandler.LookupNone | app/src/main/java/io/appium/uiautomator2/handler/UpdateSettings.java:57-64 | a name is unknown exactly when no registry entry carries it |
| UpdateSettingsHandler.GetSetting | app/src/main/java/io/appium/uiautomator2/handler/UpdateSettings.java:57-64 | the scan over the settings returns an entry of that name, and fails with UnsupportedSettingException exactly when none carries it |
| UpdateSettingsHandler.LookupName | app/src/main/java/io/appium/uiautomator2/handler/UpdateSettings.java:58-61 | every setting is found under its own name |
| UpdateSettingsHandler.UpdateOne | app/src/main/java/io/appium/uiautomator2/handler/UpdateSettings.java:49-51 | one entry fails exactly when its name is unknown (UnsupportedSettingException), its value has the wrong type for the setting, or applying it throws an Error |
| UpdateSettingsHandler.FirstFalse | app/src/main/java/io/appium/uiautomator2/handler/UpdateSettings.java:46-53 | the position of the first failing entry, every one before it succeeding; none exactly when all succeed |
| UpdateSettingsHandler.FirstFailureMeaning | app/src/main/java/io/appium/uiautomator2/handler/UpdateSettings.java:46-53 | the first failure has every update before it succeed; there is none exactly when every update succeeds |
| UpdateSettingsHandler.FirstFailureAt | app/src/main/java/io/appium/uiautomator2/handler/UpdateSettings.java:46-53 | an entry that fails after all earlier ones succeeded is the first failure |
| UpdateSettingsHandler.RecordedOther | app/src/main/java/io/appium/uiautomator2/handler/UpdateSettings.java:52 | recording entries leaves every capability none of them names as it was |
| UpdateSettingsHandler.RecordedLast | app/src/main/java/io/appium/uiautomator2/handler/UpdateSettings.java:52 | recording entries sets each named capability to the last value given for it |
| UpdateSettingsHandler.SafeHandle | app/src/main/java/io/appium/uiautomator2/handler/UpdateSettings.java:41-55 | the loop leaves the capabilities and the answer as specified: all entries recorded and a true response when every update succeeds, otherwise the entries before the first failure recorded and its exception thrown; the scroll data is untouched |
| UpdateSettingsHandler.OutcomeRecords | app/src/main/java/io/appium/uiautomator2/handler/UpdateSettings.java:46-54 | after a successful update every entry's value reads back as a capability (the last one for a repeated name); an unknown name anywhere makes the update fail, with UnsupportedSettingException when it is the first failure |
| UpdateSettingsHandler.OutcomeStopsAtFailure | app/src/main/java/io/appium/uiautomator2/handler/UpdateSettings.java:46-53 | on failure the failing entry and all after it are not recorded |
| UpdateSettingsHandler.SuccessIsOk | app/src/main/java/io/appium/uiautomator2/handler/UpdateSettings.java:54 | a successful call answers HTTP 200 |
| ElementsHash.Locate | app/src/main/java/io/appium/uiautomator2/model/internal/AndroidElementsHash.java:87-119 | getElement(sel, key) finds an object exactly when findObject (no parent) or getChild (under the stored parent, with bounds intersecting the parent's) gives one that is enabled; every failure is ElementNotFoundException |
| ElementsHash.LocateNullCounterexample | app/src/main/java/io/appium/uiautomator2/model/internal/AndroidElementsHash.java:92-114 | with no parent and nothing on screen, the code as written dereferences null where an ElementNotFoundException is meant |
| ElementsHash.LocateAgrees | app/src/main/java/io/appium/uiautomator2/model/internal/AndroidElementsHash.java:87-119 | wherever the code as written does not dereference null, it and the corrected lookup give the same answer |
| ElementsHash.FoundFrom | app/src/main/java/io/appium/uiautomator2/model/internal/AndroidElementsHash.java:156-182 | the probes from k on find at most one object per probe up to the known miss; a thrown UiObjectNotFoundException ends the call |
| ElementsHash.FoundFromHits | app/src/main/java/io/appium/uiautomator2/model/internal/AndroidElementsHash.java:171-181 | every object found is the one probe k + j found enabled, in probe order |
| ElementsHash.Objects | app/src/main/java/io/appium/uiautomator2/model/internal/AndroidElementsHash.java:178 | the UI objects of the found elements, one per element |
| ElementsHash.ObjectsSnoc | app/src/main/java/io/appium/uiautomator2/model/internal/AndroidElementsHash.java:178 | appending an element appends its UI object |
| ElementsHash.IntToStringInjective | app/src/main/java/io/appium/uiautomator2/model/internal/AndroidElementsHash.java:65 | two int counter values with the same decimal key are equal |
| ElementsHash.TrackedSnoc | app/src/main/java/io/appium/uiautomator2/model/internal/AndroidElementsHash.java:176-178 | adding a fresh element keeps the table valid, the counter in step with the elements found and every found element new and stored |
| ElementsHash.AndroidElementsHash.constructor | app/src/main/java/io/appium/uiautomator2/model/internal/AndroidElementsHash.java:47-50 | a new table has counter 0 and no elements, and is valid |
| ElementsHash.AndroidElementsHash.AddElement | app/src/main/java/io/appium/uiautomator2/model/internal/AndroidElementsHash.java:63-69 | the counter goes up by one with int wrap-around, the element is stored under its decimal string, and until the counter reaches Integer.MAX_VALUE the key is new and the table stays valid |
| ElementsHash.AndroidElementsHash.GetElementByKey | app/src/main/java/io/appium/uiautomator2/model/internal/AndroidElementsHash.java:76-78 | the element stored under the key, or null exactly when there is none |
| ElementsHash.AndroidElementsHash.GetElement | app/src/main/java/io/appium/uiautomator2/model/internal/AndroidElementsHash.java:87-119 | built on the corrected lookup Locate: when it fails the table is unchanged and the error is ElementNotFoundException; otherwise the object found is added under the next counter value |
| ElementsHash.AndroidElementsHash.GetElementsAsWritten | app/src/main/java/io/appium/uiautomator2/model/internal/AndroidElementsHash.java:151-183 | as written the loop probes the same selector every round: once the first probe finds an enabled object it never stops and adds that object once per round; a first miss returns no elements |
| ElementsHash.AndroidElementsHash.GetElements | app/src/main/java/io/appium/uiautomator2/model/internal/AndroidElementsHash.java:126-184 | a selector ending in an instance gives at most that one enabled object; otherwise the result is what the probes find (FoundFrom), failing exactly when a probe throws; the elements added are new and stored |
| ElementsHash.AndroidElementsHash.GetInstanceElements | app/src/main/java/io/appium/uiautomator2/model/internal/AndroidElementsHash.java:141-149 | at most one element, present exactly when findObject gives an enabled object; the table is unchanged when there is none |
| ElementsHash.AndroidElementsHash.ProbeElements | app/src/main/java/io/appium/uiautomator2/model/internal/AndroidElementsHash.java:151-183 | the probing loop returns exactly the objects FoundFrom describes, fails exactly where it does, and keeps the table valid with every element it adds new |
| ElementsHash.LocateAsWritten | app/src/main/java/io/appium/uiautomator2/model/internal/AndroidElementsHash.java:87-119 | getElement(sel, key) as written fails with a NullPointerException exactly when the device answers null (no parent: findObject; under a parent: getChild), and otherwise agrees with Locate |
| Common.JavaDiv | app/src/main/java/io/appium/uiautomator2/handler/GetElementAttribute.java:202 | Java's int division truncates toward zero, and agrees with floor division on non-negative operands |
| Common.JavaRem | app/src/main/java/io/appium/uiautomator2/handler/GetElementAttribute.java:203 | Java's int remainder completes the quotient: a == (a / b) * b + a % b |
| GetElementAttributeHandler.SwipeAsWrittenLeavesElement | app/src/main/java/io/appium/uiautomator2/handler/GetElementAttribute.java:116-122 | for an element lower on the screen than it is tall, the clamps as written put the swipe's start above the element and make it run downward |
| GetElementAttributeHandler.SwipePoints | app/src/main/java/io/appium/uiautomator2/handler/GetElementAttribute.java:110-122 | the swipe is vertical through the centre, at most 200 pixels either side of it, and lies inside the element's bounds |
| GetElementAttributeHandler.SwipePointsAtScreenTop | app/src/main/java/io/appium/uiautomator2/handler/GetElementAttribute.java:116-122 | for an element at the top of the screen the corrected clamps and the clamps as written give the same swipe |
| GetElementAttributeHandler.ScanChildren | app/src/main/java/io/appium/uiautomator2/handler/GetElementAttribute.java:166-195 | the loop over the children ends in the state ScanFrom describes from the initial variables |
| GetElementAttributeHandler.NumRows | app/src/main/java/io/appium/uiautomator2/handler/GetElementAttribute.java:202-206 | the rows needed for itemCount items at perRow per row: the fewest that hold them all |
| GetElementAttributeHandler.OffsetDividesByZero | app/src/main/java/io/appium/uiautomator2/handler/GetElementAttribute.java:191-202 | two children on two rows leave itemsPerRow at 0, so the code as written throws an ArithmeticException where the corrected count gives an offset |
| GetElementAttributeHandler.ScanPositiveFrom | app/src/main/java/io/appium/uiautomator2/handler/GetElementAttribute.java:174-195 | from any sane loop state, items per row stay non-negative and, once a child was examined, the corrected count is at least one |
| GetElementAttributeHandler.ScanPositive | app/src/main/java/io/appium/uiautomator2/handler/GetElementAttribute.java:166-195 | after the loop, a scan that examined a child has at least one item per row in the corrected count |
| GetElementAttributeHandler.OffsetByItemCount | app/src/main/java/io/appium/uiautomator2/handler/GetElementAttribute.java:158-220 | the only exception that escapes is the missing accessibility node; no child generator, no children or a null first child give offset 0 |
| GetElementAttributeHandler.LastRowStart | app/src/main/java/io/appium/uiautomator2/handler/GetElementAttribute.java:184-186 | the last row start among the first n children, or 0 exactly when none starts a row |
| GetElementAttributeHandler.RowStartsMonotone | app/src/main/java/io/appium/uiautomator2/handler/GetElementAttribute.java:184-185 | more children never have fewer row starts |
| GetElementAttributeHandler.ScanStep | app/src/main/java/io/appium/uiautomator2/handler/GetElementAttribute.java:174-195 | a child that does not start the third row advances the loop and keeps its invariant |
| GetElementAttributeHandler.ScanFewRowsFrom | app/src/main/java/io/appium/uiautomator2/handler/GetElementAttribute.java:174-195 | with fewer than three row starts the loop runs to the end and reads off their number, the last row's items and its rise |
| GetElementAttributeHandler.ScanThirdRowFrom | app/src/main/java/io/appium/uiautomator2/handler/GetElementAttribute.java:184-189 | the loop stops at the third row start and reads off the row before it and the rise there |
| GetElementAttributeHandler.ThirdRowStart | app/src/main/java/io/appium/uiautomator2/handler/GetElementAttribute.java:185-188 | children with three row starts or more have a child where the third starts |
| GetElementAttributeHandler.ScanReadsRows | app/src/main/java/io/appium/uiautomator2/handler/GetElementAttribute.java:163-195 | on children that all have bounds the loop always finishes and reads rows as the row starts of the children say: its count, items per row and row height |
| GetElementAttributeHandler.ObservedScroll | app/src/main/java/io/appium/uiautomator2/handler/GetElementAttribute.java:127-137 | the scroll data of the first swipe when there is any, otherwise that of the swipe back |
| GetElementAttributeHandler.ScrollableOffset | app/src/main/java/io/appium/uiautomator2/handler/GetElementAttribute.java:105-156 | with the corrected swipe points and items per row: no node gives its exception; no scroll data throws exactly when neither swipe reports any; maxScrollY is the answer when reported; neither metric throws |
| GetElementAttributeHandler.TouchPadding | app/src/main/java/io/appium/uiautomator2/handler/GetElementAttribute.java:254-274 | half the paging touch slop, rounded down |
| GetElementAttributeHandler.ContentSizeJson | app/src/main/java/io/appium/uiautomator2/handler/GetElementAttribute.java:292-306 | an object with the keys width, height, top, left, scrollableOffset and touchPadding in that order |
| GetElementAttributeHandler.GetStored | app/src/main/java/io/appium/uiautomator2/handler/GetElementAttribute.java:296-301 | in an object with distinct keys each key looks up its own value |
| GetElementAttributeHandler.ContentSizeFields | app/src/main/java/io/appium/uiautomator2/handler/GetElementAttribute.java:285-301 | each key of the contentSize object holds the element's width, height, top, left, offset and padding |
| GetElementAttributeHandler.ContentSizeUnique | app/src/main/java/io/appium/uiautomator2/handler/GetElementAttribute.java:296-301 | the six keys of the contentSize object are distinct |
| GetElementAttributeHandler.ContentSize | app/src/main/java/io/appium/uiautomator2/handler/GetElementAttribute.java:72-77 | getBounds, then the touch padding, then the (corrected) offset are read, the first exception wins, and otherwise the answer is the contentSize object of the three |
| GetElementAttributeHandler.HandleSpec | app/src/main/java/io/appium/uiautomator2/handler/GetElementAttribute.java:57-103 | an exception from the element cache (a stale handle that cannot be restored) propagates, as the lookup is outside the try block; an id not in the cache answers NO_SUCH_ELEMENT; every reply carries the request's session id |
| GetElementAttributeHandler.HandleOutcomes | app/src/main/java/io/appium/uiautomator2/handler/GetElementAttribute.java:65-101 | Success exactly when the attribute was read; an exception propagates exactly when it is of no caught kind; a caught one is answered with the exception, except UiObjectNotFoundException |
| GetElementAttributeHandler.FailureStatuses | app/src/main/java/io/appium/uiautomator2/handler/GetElementAttribute.java:86-101 | the status of each caught exception: UNKNOWN_ERROR, STALE_ELEMENT_REFERENCE or UNKNOWN_COMMAND, and which exceptions are not caught |
| GetElementAttributeHandler.StringAttributeVerbatim | app/src/main/java/io/appium/uiautomator2/handler/GetElementAttribute.java:66-70 | the five string attributes are answered as read, null as null |
| GetElementAttributeHandler.BooleanAttributeText | app/src/main/java/io/appium/uiautomator2/handler/GetElementAttribute.java:78-84 | any other attribute but contentSize answers the text "true" exactly when the boolean is true and "false" exactly when it is false |
| GetElementAttributeHandler.ContentSizeAnswer | app/src/main/java/io/appium/uiautomator2/handler/GetElementAttribute.java:71-97 | with the corrected offset: contentSize answers the JSON text of the object when the offset is known and UNKNOWN_ERROR with the exception when it is not |
| GetElementAttributeHandler.SwipeAsWritten | app/src/main/java/io/appium/uiautomator2/handler/GetElementAttribute.java:110-122 | the swipe as written is vertical through the centre; for a non-negative height it ends at or below the screen top and starts at most 200 pixels below the centre, and a clamped start is at most the height |
| GetElementAttributeHandler.OffsetByItemCountAsWritten | app/src/main/java/io/appium/uiautomator2/handler/GetElementAttribute.java:158-220 | the offset as written fails with the missing node or with division by zero, the latter exactly when an item was examined and the loop left itemsPerRow at 0; when the scan did not end inside a partly counted row it agrees with OffsetByItemCount |
| GetElementAttributeHandler.AttributeValue | app/src/main/java/io/appium/uiautomator2/handler/GetElementAttribute.java:66-84 | a string attribute, contentSize or a boolean attribute is read by name, and the read fails exactly when that read throws, with its exception; anything but a string attribute answers a JSON string |
| GetElementAttributeHandler.Caught | app/src/main/java/io/appium/uiautomator2/handler/GetElementAttribute.java:86-101 | a caught exception never answers SUCCESS or NO_SUCH_ELEMENT; UiObjectNotFoundException answers UNKNOWN_ERROR without a value and every other caught kind carries the exception |
| GetElementAttributeHandler.StaleCacheEntry | app/src/main/java/io/appium/uiautomator2/handler/GetElementAttribute.java:57-64 | a StaleElementReferenceException from the element cache propagates out of safeHandle, and SafeRequestHandler answers it with HTTP 404 carrying that exception |
| ActionsPreprocessor.AllowedItemTypes | app/src/main/java/io/appium/uiautomator2/utils/w3c/ActionsPreprocessor.java:59-74 | a list exactly for the three source types; none accepts only pause, every list has pause, and only pointer accepts pointerCancel |
| ActionsPreprocessor.Reversed | app/src/main/java/io/appium/uiautomator2/utils/w3c/ActionsPreprocessor.java:94-97 | the reversal keeps the length |
| ActionsPreprocessor.ScanErrorSticks | app/src/main/java/io/appium/uiautomator2/utils/w3c/ActionsPreprocessor.java:51-80 | once the backward loop throws at some item, that exception is the loop's outcome |
| ActionsPreprocessor.PreprocessActionItems | app/src/main/java/io/appium/uiautomator2/utils/w3c/ActionsPreprocessor.java:45-99 | the backward loop with its skip flag, and the reversal after it, compute PreprocessItems |
| ActionsPreprocessor.DroppedIffNearestBeforeCancel | app/src/main/java/io/appium/uiautomator2/utils/w3c/ActionsPreprocessor.java:82-89 | an item that is not a cancel is dropped exactly when only cancels lie between it and a later pointerCancel |
| ActionsPreprocessor.ReversedCons | app/src/main/java/io/appium/uiautomator2/utils/w3c/ActionsPreprocessor.java:94-97 | reversing x followed by s puts x last |
| ActionsPreprocessor.ReversedAppend | app/src/main/java/io/appium/uiautomator2/utils/w3c/ActionsPreprocessor.java:94-97 | reversing a concatenation reverses and swaps the parts |
| ActionsPreprocessor.ReversedTwice | app/src/main/java/io/appium/uiautomator2/utils/w3c/ActionsPreprocessor.java:51-95 | the two backward loops restore the original order |
| ActionsPreprocessor.ScanFromMeaning | app/src/main/java/io/appium/uiautomator2/utils/w3c/ActionsPreprocessor.java:51-92 | the backward loop succeeds exactly when every item has a type its source type allows, and keeps the survivors, last first |
| ActionsPreprocessor.PreprocessItemsMeaning | app/src/main/java/io/appium/uiautomator2/utils/w3c/ActionsPreprocessor.java:45-99 | preprocessActionItems throws exactly when some item has no type or one its source type does not allow; otherwise it returns the survivors in their original order |
| ActionsPreprocessor.NoCancelAllSurvive | app/src/main/java/io/appium/uiautomator2/utils/w3c/ActionsPreprocessor.java:82-91 | without pointerCancel items every item survives and the list comes back unchanged |
| ActionsPreprocessor.SurvivorsAreInputItems | app/src/main/java/io/appium/uiautomator2/utils/w3c/ActionsPreprocessor.java:82-91 | every survivor is an input item and none is a cancel |
| ActionsPreprocessor.ActionStep | app/src/main/java/io/appium/uiautomator2/utils/w3c/ActionsPreprocessor.java:104-159 | one turn of the loop changes at most the action at its index, and a failure leaves the array as it was |
| ActionsPreprocessor.PreprocessUpTo | app/src/main/java/io/appium/uiautomator2/utils/w3c/ActionsPreprocessor.java:104-159 | after n turns the array keeps its length and the actions not yet reached are untouched |
| ActionsPreprocessor.FailureSticks | app/src/main/java/io/appium/uiautomator2/utils/w3c/ActionsPreprocessor.java:104-159 | once a turn throws, later turns change nothing |
| ActionsPreprocessor.FailedOutcome | app/src/main/java/io/appium/uiautomator2/utils/w3c/ActionsPreprocessor.java:104-164 | a failure in the loop is the outcome of preprocess, before the pointer-type count is checked |
| ActionsPreprocessor.FailStep | app/src/main/java/io/appium/uiautomator2/utils/w3c/ActionsPreprocessor.java:104-159 | a failing check ends the turn with that error and leaves the array alone |
| ActionsPreprocessor.StepSucceeds | app/src/main/java/io/appium/uiautomator2/utils/w3c/ActionsPreprocessor.java:118-158 | a passing check stores the rewritten action and records its id and pointer type |
| ActionsPreprocessor.StepFails | app/src/main/java/io/appium/uiautomator2/utils/w3c/ActionsPreprocessor.java:107-158 | a failing check ends the loop with that exception |
| ActionsPreprocessor.PreprocessAction | app/src/main/java/io/appium/uiautomator2/utils/w3c/ActionsPreprocessor.java:105-158 | the checks of one action, in the source's order, compute CheckAction |
| ActionsPreprocessor.Preprocess | app/src/main/java/io/appium/uiautomator2/utils/w3c/ActionsPreprocessor.java:101-166 | the array is rewritten in place to the outcome's contents, including the actions rewritten before a failure, and the same array is returned unless an exception is thrown |
| ActionsPreprocessor.IdsOf | app/src/main/java/io/appium/uiautomator2/utils/w3c/ActionsPreprocessor.java:102-118 | the recorded ids are those of the first n actions, in order |
| ActionsPreprocessor.ActionStepMeaning | app/src/main/java/io/appium/uiautomator2/utils/w3c/ActionsPreprocessor.java:104-159 | a turn succeeds exactly on an acceptable action whose id is new, and then records its id and pointer type and stores its survivors |
| ActionsPreprocessor.PrefixValidStep | app/src/main/java/io/appium/uiautomator2/utils/w3c/ActionsPreprocessor.java:107-118 | n actions are acceptable with distinct ids exactly when the first n - 1 are and the n-th is, with an id not seen before |
| ActionsPreprocessor.UpToStepMeaning | app/src/main/java/io/appium/uiautomator2/utils/w3c/ActionsPreprocessor.java:104-159 | one more turn from a state matching n - 1 actions matches n actions, exactly when they are valid |
| ActionsPreprocessor.PreprocessUpToMeaning | app/src/main/java/io/appium/uiautomator2/utils/w3c/ActionsPreprocessor.java:104-159 | the loop is still running after n turns exactly when the first n actions are valid, and then holds their ids, their pointer types and their cleaned items |
| ActionsPreprocessor.PreprocessMeaning | app/src/main/java/io/appium/uiautomator2/utils/w3c/ActionsPreprocessor.java:101-166 | preprocess accepts exactly the chains of acceptable actions with distinct ids and at most one pointer type, and returns each action with only its surviving items |
| ActionsPreprocessor.PreprocessNoCancelUnchanged | app/src/main/java/io/appium/uiautomator2/utils/w3c/ActionsPreprocessor.java:82-158 | an accepted chain without cancels comes back unchanged |
| ActionsPreprocessor.DuplicateIdRejected | app/src/main/java/io/appium/uiautomator2/utils/w3c/ActionsPreprocessor.java:112-116 | two actions with the same id are always rejected |
| ActionsTokenizer.AlignDuration | app/src/main/java/io/appium/uiautomator2/utils/w3c/ActionsTokenizer.java:73-82 | a positive duration is rounded up to the next multiple of the injection delay, by less than one delay; anything else becomes 0 |
| ActionsTokenizer.ExtractDuration | app/src/main/java/io/appium/uiautomator2/utils/w3c/ActionsTokenizer.java:130-144 | the item's duration, accepted exactly when it is present and not negative |
| ActionsTokenizer.ExtractButton | app/src/main/java/io/appium/uiautomator2/utils/w3c/ActionsTokenizer.java:97-127 | a finger passes the button code through (0 when absent); for other tools left (0 or absent) is the primary button, middle (1) the tertiary and right (2) the secondary, each the stylus button for a pen from API 23 on, and any other code is passed through |
| ActionsTokenizer.ActionToToolType | app/src/main/java/io/appium/uiautomator2/utils/w3c/ActionsTokenizer.java:180-198 | mouse exactly for pointerType mouse, stylus exactly for pen, finger otherwise |
| ActionsTokenizer.AssertPointersCount | app/src/main/java/io/appium/uiautomator2/utils/w3c/ActionsTokenizer.java:387-398 | fails exactly for a mouse or pen that is not the first pointer source |
| ActionsTokenizer.OriginElementId | app/src/main/java/io/appium/uiautomator2/utils/w3c/ActionsTokenizer.java:203-218 | a string origin is the element id itself; an object names an element exactly when its first key starts with "element" ignoring case, and the id is that key's value as a string; any other origin names none |
| ActionsTokenizer.ExtractElementCoordinates | app/src/main/java/io/appium/uiautomator2/utils/w3c/ActionsTokenizer.java:200-253 | an origin naming no element, an element the lookup does not find, and a zero-sized element are refused with their ActionsParseException; a StaleElementReferenceException or StaleObjectException of the lookup passes through unchanged; otherwise the coordinates are the centre (left + width/2, top + height/2 in int division) shifted by the optional x and y |
| ActionsTokenizer.ExtractCoordinates | app/src/main/java/io/appium/uiautomator2/utils/w3c/ActionsTokenizer.java:255-310 | a negative index fails; a viewport move needs both coordinates and is them; a pointer-relative move first in the list fails, and later ones add their offset to the previous coordinates |
| ActionsTokenizer.ScanStopSticks | app/src/main/java/io/appium/uiautomator2/utils/w3c/ActionsTokenizer.java:150-154 | once the entry-point scan meets a slot later than t, no further slot changes it |
| ActionsTokenizer.EmptyStep | app/src/main/java/io/appium/uiautomator2/utils/w3c/ActionsTokenizer.java:333-343 | an item of a none source is accepted exactly when it is a pause with a valid duration; it advances the clock by the aligned duration and opens a slot there |
| ActionsTokenizer.KeyStep | app/src/main/java/io/appium/uiautomator2/utils/w3c/ActionsTokenizer.java:350-384 | a key item is a pause, keyDown or keyUp; a key event needs a non-empty value and leaves the clock alone and the chain entry at now; a pause advances the clock by its aligned duration |
| ActionsTokenizer.DownStep | app/src/main/java/io/appium/uiautomator2/utils/w3c/ActionsTokenizer.java:425-438 | a pointerDown is refused while down or when a down was recorded at this moment; after it the pointer is down and the entry point and recent down are now |
| ActionsTokenizer.UpStep | app/src/main/java/io/appium/uiautomator2/utils/w3c/ActionsTokenizer.java:440-459 | a pointerUp is refused unless down, and when an up was recorded at this moment; after it the pointer is released with no button and the entry point and recent up are now |
| ActionsTokenizer.MoveItemStep | app/src/main/java/io/appium/uiautomator2/utils/w3c/ActionsTokenizer.java:461-515 | a move succeeds exactly when its duration is valid and, unless it is short or first, both its coordinates resolve; the clock advances by the aligned duration, a short move changes nothing, a first move only opens a slot |
| ActionsTokenizer.ApplyPointer | app/src/main/java/io/appium/uiautomator2/utils/w3c/ActionsTokenizer.java:400-423 | a source without id fails with a JSON error, and a second mouse or pen source is refused |
| ActionsTokenizer.FilterActionsByType | app/src/main/java/io/appium/uiautomator2/utils/w3c/ActionsTokenizer.java:84-95 | the loop keeps the actions of that type in order, as FilterByType states |
| ActionsTokenizer.FilterErrorSticks | app/src/main/java/io/appium/uiautomator2/utils/w3c/ActionsTokenizer.java:87-93 | once an action without a type stops the filter, that error is its outcome |
| ActionsTokenizer.Tokenizer.constructor | app/src/main/java/io/appium/uiautomator2/utils/w3c/ActionsTokenizer.java:537 | the timeline starts empty |
| ActionsTokenizer.Tokenizer.FindEntryPointDeltaForSecondaryAction | app/src/main/java/io/appium/uiautomator2/utils/w3c/ActionsTokenizer.java:146-178 | the scan over the slots up to t returns the entry point EntryPoint describes |
| ActionsTokenizer.Tokenizer.RecordEventParams | app/src/main/java/io/appium/uiautomator2/utils/w3c/ActionsTokenizer.java:312-328 | the timeline becomes Record of the old one: a secondary down, up or move is moved to the gesture's entry point, then addEventAt |
| ActionsTokenizer.Tokenizer.ApplyEmptyActionToEventsMapping | app/src/main/java/io/appium/uiautomator2/utils/w3c/ActionsTokenizer.java:330-344 | the loop over a none source leaves the timeline ApplyEmpty describes, or fails with its error |
| ActionsTokenizer.Tokenizer.ApplyKeyItem | app/src/main/java/io/appium/uiautomator2/utils/w3c/ActionsTokenizer.java:351-383 | one turn of the key loop is KeyStep, and the timeline field holds its tokens |
| ActionsTokenizer.Tokenizer.ApplyKeyActionToEventsMapping | app/src/main/java/io/appium/uiautomator2/utils/w3c/ActionsTokenizer.java:346-385 | the loop over a key source leaves the timeline ApplyKey describes, or fails with its error |
| ActionsTokenizer.Tokenizer.RecordMoveSteps | app/src/main/java/io/appium/uiautomator2/utils/w3c/ActionsTokenizer.java:500-513 | the inner loop records steps 2 to steps of a move, as MoveSteps states |
| ActionsTokenizer.Tokenizer.ApplyPointerDown | app/src/main/java/io/appium/uiautomator2/utils/w3c/ActionsTokenizer.java:425-438 | the pointerDown branch is DownStep, and the timeline field holds its tokens |
| ActionsTokenizer.Tokenizer.ApplyPointerUp | app/src/main/java/io/appium/uiautomator2/utils/w3c/ActionsTokenizer.java:440-459 | the pointerUp branch is UpStep, and the timeline field holds its tokens |
| ActionsTokenizer.Tokenizer.RecordMove | app/src/main/java/io/appium/uiautomator2/utils/w3c/ActionsTokenizer.java:475-514 | the body of a move once both coordinates are known is MoveStep |
| ActionsTokenizer.Tokenizer.ApplyPointerMove | app/src/main/java/io/appium/uiautomator2/utils/w3c/ActionsTokenizer.java:461-515 | the pointerMove branch is MoveItemStep, and the timeline field holds its tokens |
| ActionsTokenizer.Tokenizer.ApplyPointerItem | app/src/main/java/io/appium/uiautomator2/utils/w3c/ActionsTokenizer.java:417-521 | the switch on the item type is PointerStep |
| ActionsTokenizer.Tokenizer.ApplyPointerActionToEventsMapping | app/src/main/java/io/appium/uiautomator2/utils/w3c/ActionsTokenizer.java:400-523 | the loop over a pointer source leaves the timeline ApplyPointer describes, or fails with its error |
| ActionsTokenizer.Tokenizer.ApplyEmptyActions | app/src/main/java/io/appium/uiautomator2/utils/w3c/ActionsTokenizer.java:539-542 | the none sources are applied in order, as ApplyAllEmpty states |
| ActionsTokenizer.Tokenizer.ApplyKeyActions | app/src/main/java/io/appium/uiautomator2/utils/w3c/ActionsTokenizer.java:544-547 | the key sources are applied in order, as ApplyAllKey states |
| ActionsTokenizer.Tokenizer.ApplyPointerActions | app/src/main/java/io/appium/uiautomator2/utils/w3c/ActionsTokenizer.java:549-552 | the k-th pointer source is applied as pointer number k, as ApplyAllPointer states |
| ActionsTokenizer.Tokenizer.Tokenize | app/src/main/java/io/appium/uiautomator2/utils/w3c/ActionsTokenizer.java:536-555 | tokenize returns TokenizeActions: none sources, then key sources, then pointer sources on one fresh timeline (its properties are TokenizerProperties.TokenizeGood and the lemmas beside it) |
| ActionsTokenizer.EmptyErrorSticks | app/src/main/java/io/appium/uiautomator2/utils/w3c/ActionsTokenizer.java:333-343 | an exception in a none source ends its loop |
| ActionsTokenizer.KeyErrorSticks | app/src/main/java/io/appium/uiautomator2/utils/w3c/ActionsTokenizer.java:350-384 | an exception in a key source ends its loop |
| ActionsTokenizer.PointerErrorSticks | app/src/main/java/io/appium/uiautomator2/utils/w3c/ActionsTokenizer.java:416-522 | an exception in a pointer source ends its loop |
| ActionsTokenizer.AllEmptyErrorSticks | app/src/main/java/io/appium/uiautomator2/utils/w3c/ActionsTokenizer.java:540-542 | an exception in one none source ends tokenize's first loop |
| ActionsTokenizer.AllKeyErrorSticks | app/src/main/java/io/appium/uiautomator2/utils/w3c/ActionsTokenizer.java:545-547 | an exception in one key source ends tokenize's second loop |
| ActionsTokenizer.AllPointerErrorSticks | app/src/main/java/io/appium/uiautomator2/utils/w3c/ActionsTokenizer.java:550-552 | an exception in one pointer source ends tokenize's third loop |
| ActionTokens.AddEventAt | app/src/main/java/io/appium/uiautomator2/utils/w3c/ActionsTokenizer.java:327 | the timeline is never empty after addEventAt, and its first slot is either the new one or the old first |
| ActionTokens.SortedCons | app/src/main/java/io/appium/uiautomator2/utils/w3c/ActionsTokenizer.java:150-151 | a slot before the first of a sorted timeline keeps it sorted |
| ActionTokens.AddEventAtSorted | app/src/main/java/io/appium/uiautomator2/utils/w3c/ActionsTokenizer.java:327 | addEventAt keeps the slots in strictly increasing delta order, which the entry-point scan relies on when it stops at the first later delta |
| ActionTokens.DeltasCons | app/src/main/java/io/appium/uiautomator2/utils/w3c/ActionsTokenizer.java:151 | the deltas of a slot followed by a timeline are its delta and theirs |
| ActionTokens.AddEventAtDeltas | app/src/main/java/io/appium/uiautomator2/utils/w3c/ActionsTokenizer.java:327 | addEventAt adds exactly the delta t to the deltas with a slot, with or without an event |
| ActionTokens.EventsAtAdd | app/src/main/java/io/appium/uiautomator2/utils/w3c/ActionsTokenizer.java:327 | after addEventAt the slot at t holds its old events followed by the new one, and every other slot is unchanged |
| ActionTokens.SortedTail | app/src/main/java/io/appium/uiautomator2/utils/w3c/ActionsTokenizer.java:150-151 | the slots after the first of a sorted timeline are sorted |
| ActionTokens.EventsAtAddSame | app/src/main/java/io/appium/uiautomator2/utils/w3c/ActionsTokenizer.java:327 | the slot at t ends with the new event, after its old ones |
| ActionTokens.EventsAtAddOther | app/src/main/java/io/appium/uiautomator2/utils/w3c/ActionsTokenizer.java:327 | addEventAt at t leaves the slot of every other delta as it was |
| ActionTokens.EventsAtAbsentBelow | app/src/main/java/io/appium/uiautomator2/utils/w3c/ActionsTokenizer.java:152-156 | a sorted timeline has no slot before its first delta |
| ActionTokens.AddEventAtWellFormed | app/src/main/java/io/appium/uiautomator2/utils/w3c/ActionsTokenizer.java:327 | recording a well-timed event at a time on the 5 ms grid keeps every slot on the grid and every event well timed |
| TokenizerProperties.CountEventsResult | app/src/main/java/io/appium/uiautomator2/utils/w3c/ActionsTokenizer.java:161-174 | scanning one slot's events keeps the candidate or replaces it by that slot's delta |
| TokenizerProperties.ScanSlotsResult | app/src/main/java/io/appium/uiautomator2/utils/w3c/ActionsTokenizer.java:150-175 | the candidate the scan holds is the delta of a slot it visited, no later than t |
| TokenizerProperties.EntryPointBound | app/src/main/java/io/appium/uiautomator2/utils/w3c/ActionsTokenizer.java:146-178 | the entry point found is the delta of an existing slot at or before t |
| TokenizerProperties.RecordGood | app/src/main/java/io/appium/uiautomator2/utils/w3c/ActionsTokenizer.java:312-328 | recording a well-timed event at a time on the grid keeps the timeline sorted, on the grid and well timed, even after the start delta is moved to the entry point |
| TokenizerProperties.EmptyStepGood | app/src/main/java/io/appium/uiautomator2/utils/w3c/ActionsTokenizer.java:336-342 | a pause keeps the timeline good and the clock on the grid |
| TokenizerProperties.EmptyFoldGood | app/src/main/java/io/appium/uiautomator2/utils/w3c/ActionsTokenizer.java:330-344 | a none source keeps the timeline good and the clock on the grid |
| TokenizerProperties.KeyStepGood | app/src/main/java/io/appium/uiautomator2/utils/w3c/ActionsTokenizer.java:353-383 | one key item keeps the timeline good, the clock on the grid and the chain entry not after the clock |
| TokenizerProperties.KeyFoldGood | app/src/main/java/io/appium/uiautomator2/utils/w3c/ActionsTokenizer.java:346-385 | a key source keeps that invariant from a good timeline on |
| TokenizerProperties.StepTimed | app/src/main/java/io/appium/uiautomator2/utils/w3c/ActionsTokenizer.java:500-513 | every intermediate step of a move is recorded on the grid, and its event starts no later |
| TokenizerProperties.StepRecordGood | app/src/main/java/io/appium/uiautomator2/utils/w3c/ActionsTokenizer.java:504-511 | recording one step of a move keeps the timeline good |
| TokenizerProperties.MoveStepsGood | app/src/main/java/io/appium/uiautomator2/utils/w3c/ActionsTokenizer.java:500-513 | the inner loop of a move keeps the timeline good |
| TokenizerProperties.FirstMoveTimed | app/src/main/java/io/appium/uiautomator2/utils/w3c/ActionsTokenizer.java:479-497 | the first event of a move is recorded on the grid, at or after the chain entry, and the move ends on the grid |
| TokenizerProperties.MoveStepGood | app/src/main/java/io/appium/uiautomator2/utils/w3c/ActionsTokenizer.java:475-514 | a move keeps the pointer loop's invariant |
| TokenizerProperties.DownStepGood | app/src/main/java/io/appium/uiautomator2/utils/w3c/ActionsTokenizer.java:425-438 | a pointerDown keeps the pointer loop's invariant |
| TokenizerProperties.UpStepGood | app/src/main/java/io/appium/uiautomator2/utils/w3c/ActionsTokenizer.java:440-459 | a pointerUp keeps the pointer loop's invariant |
| TokenizerProperties.MoveItemStepGood | app/src/main/java/io/appium/uiautomator2/utils/w3c/ActionsTokenizer.java:461-515 | a pointerMove item, short, first or full, keeps the pointer loop's invariant |
| TokenizerProperties.PointerStepGood | app/src/main/java/io/appium/uiautomator2/utils/w3c/ActionsTokenizer.java:419-521 | every pointer item keeps the pointer loop's invariant |
| TokenizerProperties.PointerFoldGood | app/src/main/java/io/appium/uiautomator2/utils/w3c/ActionsTokenizer.java:400-523 | a pointer source keeps the timeline good |
| TokenizerProperties.AllEmptyGood | app/src/main/java/io/appium/uiautomator2/utils/w3c/ActionsTokenizer.java:539-542 | all none sources keep the timeline good |
| TokenizerProperties.AllKeyGood | app/src/main/java/io/appium/uiautomator2/utils/w3c/ActionsTokenizer.java:544-547 | all key sources keep the timeline good |
| TokenizerProperties.AllPointerGood | app/src/main/java/io/appium/uiautomator2/utils/w3c/ActionsTokenizer.java:549-552 | all pointer sources keep the timeline good |
| TokenizerProperties.TokenizeGood | app/src/main/java/io/appium/uiautomator2/utils/w3c/ActionsTokenizer.java:525-555 | a tokenized chain is sorted by delta, every delta and event start is on the 5 ms grid, and no event starts after its slot |
| TokenizerProperties.RecordDeltas | app/src/main/java/io/appium/uiautomator2/utils/w3c/ActionsTokenizer.java:312-328 | recording at t adds exactly t to the deltas with a slot |
| TokenizerProperties.MoveStepsDeltas | app/src/main/java/io/appium/uiautomator2/utils/w3c/ActionsTokenizer.java:498-513 | the inner loop of a move opens slots only between one delay after its first event and its last step |
| TokenizerProperties.MoveStepWindow | app/src/main/java/io/appium/uiautomator2/utils/w3c/ActionsTokenizer.java:479-514 | a move ends at its start plus its duration, keeps the pressed state and entry point, opens slots only inside its time window, and opens the slot of its first event unless it is a short hover |
| TokenizerProperties.PointerStepAlternates | app/src/main/java/io/appium/uiautomator2/utils/w3c/ActionsTokenizer.java:425-459 | an accepted item presses only a released pointer and releases only a pressed one |
| TokenizerProperties.PointerFoldAlternates | app/src/main/java/io/appium/uiautomator2/utils/w3c/ActionsTokenizer.java:416-522 | an accepted pointer source alternates downs and ups, starting released |
| TokenizerProperties.ClockReachesStep | app/src/main/java/io/appium/uiautomator2/utils/w3c/ActionsTokenizer.java:341 | the clock reaches u within n items exactly when it did within n - 1 or reaches it now |
| TokenizerProperties.AddEmptySlot | app/src/main/java/io/appium/uiautomator2/utils/w3c/ActionsTokenizer.java:342 | opening an empty slot at t adds t to the times that read as empty slots and changes nothing else |
| TokenizerProperties.EmptyFoldMeaning | app/src/main/java/io/appium/uiautomator2/utils/w3c/ActionsTokenizer.java:330-344 | a none source is accepted exactly when every item is a pause with a valid duration; it then ends at the sum of the aligned pauses, opens an empty slot at each cumulative pause time and changes no other slot |
| TokenizerProperties.KeyFoldClock | app/src/main/java/io/appium/uiautomator2/utils/w3c/ActionsTokenizer.java:350-384 | after n key items the clock is the sum of the aligned pauses and the chain entry is the time of the last key event |
| TokenizerProperties.KeyEventRecorded | app/src/main/java/io/appium/uiautomator2/utils/w3c/ActionsTokenizer.java:358-377 | a keyDown or keyUp needs a non-empty value and records, at the current clock, a key event with the code of its first character, starting now for a down and at the previous key event for an up |
| TokenizerProperties.NoMoveNoCoordinates | app/src/main/java/io/appium/uiautomator2/utils/w3c/ActionsTokenizer.java:255-271 | without a pointerMove at or before an item, its coordinates cannot be resolved |
| Common.LowerAsciiString | app/src/main/java/io/appium/uiautomator2/utils/w3c/ActionsTokenizer.java:214 | String.toLowerCase on ASCII text: each character lowered, the length kept |
| Json.JsonObject.constructor | app/src/main/java/io/appium/uiautomator2/utils/ElementHelpers.java:93 | a new JSONObject has no members |
| Json.Text | app/src/main/java/io/appium/uiautomator2/http/AppiumResponse.java:75 | JSONObject.toString: never empty, no raw character below U+0020 (strings are escaped as JSONStringer does), and an object's text opens with a brace and an array's with a bracket |
| Json.EscapeChar | app/src/main/java/io/appium/uiautomator2/http/AppiumResponse.java:75 | the escape JSONStringer writes for one character: quote, backslash and slash behind a backslash, the five short forms, `\u00xx` for other control characters, and any other character as it is; never a raw control character |
| Json.Escape | app/src/main/java/io/appium/uiautomator2/http/AppiumResponse.java:75 | the escaped text of a string holds no raw character below U+0020 |
| Json.Quote | app/src/main/java/io/appium/uiautomator2/http/AppiumResponse.java:75 | a quoted string opens and closes with a double quote and holds no raw control character |
| Json.UnescapeChar | app/src/main/java/io/appium/uiautomator2/http/AppiumResponse.java:75 | reading an escape back gives its character and continues after the escape |
| Json.UnescapeEscape | app/src/main/java/io/appium/uiautomator2/http/AppiumResponse.java:75 | reading the escaped text back gives the original string: escaping loses nothing |

## Left out

- Fuel bounds:
  - `ElementsHash.AndroidElementsHash.GetElementsAsWritten` takes a `fuel` count of rounds. The loop as written need not end.
  - `KnownElementsCache` bounds its recursion through context elements by `fuel`.
  - `FindElementsHandler.SelectorView` carries a `bound` from which no probe finds anything, because a screen holds finitely many objects.
- ElementsHash.AndroidElementsHash.GetElements: requires a probe `bound` known to miss, so that the loop ends. The Java loop relies on the screen being finite.
- Identity and order:
  - Java object identity is modelled as value equality. This includes `AccessibilityNodeInfo.equals` and the cache lookups.
  - HashMap and Hashtable iteration order is not modelled. Maps are Dafny maps, or association lists where order matters.
- Strings:
  - Case folding (`toLowerCase`) is ASCII-only.
  - Strings are sequences of characters. Java strings are UTF-16, so surrogate pairs are not modelled.
- TokenizerProperties.KeyEventRecorded: the key code is the first character of the value, not the code point of a surrogate pair (`codePointAt(0)`).
- Floating point:
  - Move interpolation, pressure and size are not modelled.
  - The swipe dead-zone margin 0.1 is taken as an exact division by 10.
  - Float parsing is a parameter.
- AccessibilityNodeInfoHelpers.GetText: range info is a string given by the node, where the source prints a float with `Float.toString`.
- Threads and devices:
  - The wake lock, the Looper and the HTTP server thread are not modelled. The server's liveness is a boolean.
  - `refreshRootAXNode`, `waitForIdle` and the retry loop in `getRootAccessibilityNode` are not modelled.
  - `getNodesList` and `refreshUiElementTree` are not modelled (lines 60-67 and 140-173 of `model/XPathFinder.java`).
  - The `RESOURCES_GUARD` semaphore is not modelled.
- Calls into code outside the core are parameters:
  - `UnicodeEncoder` and `Float.parseFloat`;
  - `performAction`, `toSelectors` and `getXPathNodeMatch`;
  - the XPath engine's `evaluate`;
  - UUID generation;
  - the swipe gesture, and the reflection that reads the touch padding;
  - the node lookups;
  - the display values that `addDisplayInfo` adds.
- `getSessionOrThrow` and `getPayload` are replaced by arguments. Static and instance calls are not distinguished. The `KnownElements` that `safeHandle` creates locally is a value.
- The temporary file of the page source and the rendering of the DOM as XML text are not modelled. The DOM is a tree value.
- `ClassNotFoundException` handling is not modelled.
- Rect arithmetic is unbounded; Java's `int` overflow is not modelled.
- Responses and errors:
  - The deprecated `AppiumResponse` constructor is modelled as `Reply`.
  - `NoAttributeFoundException` is identified by its class name.
  - The W3C table of error names and HTTP statuses, and the flag that marks a JSON failure, are kept as given values.
  - Stack-trace text is not modelled.
- Settings:
  - The names and types of the settings are as the enum lists them. The effect of applying each one on the device is a parameter.
  - The message text of `UnsupportedSettingException` is not modelled.
- The execution of W3C actions on the device is not modelled, only their tokenizing.
- The lenient type coercions of `org.json` (a numeric string read as an integer, and so on) are not modelled. JSON values are a datatype.
- By.java is not part of this model; its strategies are a datatype here.
- UiAutomator2Exception.java is not part of this model; its error codes are names here.
- WDStatus.java is not part of this model; its numeric codes are names here.
- ActionTokens.java and ActionsConstants.java are not part of this model. The timeline follows their use in `utils/w3c/ActionsTokenizer.java`. The step of 5 ms comes from the doc comment there.

- Several members are built on the corrected half of a Findings row. Each one models the evidently intended code, so the defect is captured only by that row's as-written member:
- Find (XPathFinder): uses Matches. The NullPointerException of `model/XPathFinder.java:239`, for a selected element without a class name, is in XPathFinder.MatchesAsWritten only.
- CollectMatches (XPathFinder): computes Matches rather than MatchesAsWritten, for the same reason.
- ScrollableOffset (GetElementAttributeHandler): uses SwipePoints and OffsetByItemCount.
  - The swipe clamped against the height is in SwipeAsWritten only.
  - The ArithmeticException of `handler/GetElementAttribute.java:202` is in OffsetByItemCountAsWritten only.
  - As written, that ArithmeticException is none of the kinds safeHandle catches, so it would propagate.
- ContentSize (GetElementAttributeHandler): reads ScrollableOffset, so it inherits the same two corrections.
- AttributeValue (GetElementAttributeHandler): answers contentSize through ContentSize, with the same two corrections.
- HandleSpec (GetElementAttributeHandler): answers contentSize through AttributeValue, with the same two corrections.
- ContentSizeAnswer (GetElementAttributeHandler): is stated over ScrollableOffset, with the same two corrections. So it does not promise what the source does when the row count divides by zero.
- GetElement (ElementsHash.AndroidElementsHash): uses Locate. The NullPointerException when the device answers null (`model/internal/AndroidElementsHash.java:92-114`) is in ElementsHash.LocateAsWritten only.
- NewElement (UiAutomationElement.ElementCache): stores VisibleBounds, which is clipped by every ancestor. The bounds as written read the immediate parent every time (`model/UiAutomationElement.java:213`); they are in VisibleBoundsAsWritten only.
- Snapshot (UiAutomationElement): uses VisibleBounds, for the same reason.
- UiAutomationElement.Snapshot: takes the allowInvisibleElements capability as a boolean. The source casts the stored capability with `(boolean)` (`model/UiAutomationElement.java:184-185`), so a non-boolean value sent at session creation throws ClassCastException there; that exception is not modelled. The same holds for Build, the ElementCache methods and Dumper.ToFile, which take the same boolean.
- UiAutomationElement.Selection: `model/UiAutomationElement.java:82` calls `ElementHelpers.getSelectionRange`, which the ElementHelpers.java of this revision does not define. The model uses `AccessibilityNodeInfoHelpers.getSelectionRange` instead, the only definition in the repository.
- A java.lang.Error thrown by a device call inside a `catch (Exception e)` block is not told apart from an Exception. This applies in ElementHelpers, KnownElements and ServerInstrumentation. Only AbstractSetting.update models an Error passing through.
- Json.EscapeChar: follows Android's JSONStringer, which does not escape U+2028 and U+2029. The org.json library itself is not part of this model.

## Findings

| source | as written | input that shows it | evidently intended | confidence | as-written member | corrected member |
|---|---|---|---|---|---|---|
| app/src/main/java/io/appium/uiautomator2/model/UiAutomationElement.java:213 | every ancestor's bounds are read from `this.parent.node`, so the immediate parent is used every time | bounds (0,0,100,100), a parent of the same size, and a grandparent (0,0,50,50): the visible bounds stay (0,0,100,100) | intersect with each ancestor's own bounds, giving (0,0,50,50) | not executed | UiAutomationElement.VisibleBoundsCounterexample | UiAutomationElement.VisibleBoundsClipsAllAncestors |
| app/src/main/java/io/appium/uiautomator2/model/XPathFinder.java:239 | `getClassName().equals("hierarchy")` on an element whose class name is null | an element without a class name, written to the DOM as `UNKNOWN` and selected by `//UNKNOWN`: NullPointerException | skip only the `hierarchy` element and return the node | not executed | XPathFinder.NullClassNameCounterexample | XPathFinder.MatchesFromMapping |
| app/src/main/java/io/appium/uiautomator2/model/internal/AndroidElementsHash.java:92-114 | the object that findObject returns is used without a null check | no parent element and nothing on screen matches the selector: NullPointerException | ElementNotFoundException | not executed | ElementsHash.LocateNullCounterexample | ElementsHash.LocateAgrees |
| app/src/main/java/io/appium/uiautomator2/model/internal/AndroidElementsHash.java:156-182 | the update of the selector's index or instance is commented out, so every round probes the same selector | a selector whose first probe finds an enabled object: every round adds that same object, and the loop does not end | probe instance (or index) 0, 1, 2, and so on, until a probe misses | not executed | ElementsHash.AndroidElementsHash.GetElementsAsWritten | ElementsHash.AndroidElementsHash.GetElements |
| app/src/main/java/io/appium/uiautomator2/utils/ElementHelpers.java:153-161 | `Float.parseFloat(text)` is called on the original text, which may be null; only `textToSend` had null replaced by "" | setText(null) on a range element from API 24: NullPointerException | null text clears the field, as "" does | not executed | ElementHelpers.SetTextNullCounterexample | ElementHelpers.SetTextNullClears |
| app/src/main/java/io/appium/uiautomator2/handler/GetElementAttribute.java:117-122 | the swipe's screen coordinates are clamped against the element's height instead of its edges | an element at rows 1000-1500: the swipe runs from y 450 to y 1050, starting above the element | clamp to the element's top and bottom | not executed | GetElementAttributeHandler.SwipeAsWrittenLeavesElement | GetElementAttributeHandler.SwipePoints |
| app/src/main/java/io/appium/uiautomator2/handler/GetElementAttribute.java:191-202 | itemsPerRow is reset to 0 when the second row starts, and the loop then ends | two children with tops 0 and 100, item count 10: division by zero | count the items of the row examined | not executed | GetElementAttributeHandler.OffsetDividesByZero | GetElementAttributeHandler.OffsetByItemCount |
