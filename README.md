# equip-prestart API handlers in Dafny

The equipment pre-start web app has four serverless handlers under `equip-prestart/api/`:

- `login.js` checks a four-digit passcode against `MAP_PASSCODE` and sets an 8-hour session cookie.
- `logout.js` overwrites that cookie with an empty one that expires at once.
- `map-data.js` requires the session cookie. It queries the Notion database for inspection rows with GPS values, turns each row into a map pin, and keeps the first (newest) pin per equipment.
- `submit.js` validates a pre-start inspection report and maps it onto the database's properties. It creates one Notion page and says whether the report marks the equipment as "do not operate".

This project models those four handlers and proves what they promise.

Module layout:

- `Wrappers`: `Option`.
- `Text`: the JavaScript string built-ins the handlers rely on. These are `trim` with the ECMAScript whitespace set, `split` on one character, and `Array.prototype.join`, modelled exactly for strings of Unicode scalar values. There is also the decimal rendering of a non-negative integer, which agrees with JavaScript's only below 2^53.
- `Http`: responses, response bodies, and the reply of an upstream call.
- `Login`, `Logout`, `MapData`, `Submit`: one module per handler.
- `Session`: lemmas that connect the three cookie handlers.

How inputs become values:

- A request becomes plain values: the method string, the `Cookie` header, the parsed body fields.
- Environment variables are `Option<string>` parameters. `Http.Configured` is the JavaScript `!value` test.
- The Notion call is a function parameter from the request that would be sent to the reply it gets. `Delivered` is a 2xx reply with its parsed payload; `Rejected` is any other status with its JSON body.

Each Notion-calling handler is split in two:

- `Admit` is the decision made before any upstream call. It is either an immediate reply or the exact request to send.
- `Handle` is the complete handler built on `Admit`.

This makes "nothing is sent upstream when a check fails" a statement about `Admit`.

How the map endpoint's loop is modelled:

- The loop in `map-data.js` fills a JavaScript `Map` and reads `Map.values()`, which come back in insertion order.
- `MapData.KeepFirstPerKey` keeps that loop as a method. Its state is a `map` plus the sequence of keys in insertion order.
- The method is proved equal to the reference function `MapData.FirstPerKey`, which selects the first position of each key.
- The properties of the selection are lemmas about `FirstPerKey`: keys are distinct, every key is covered, original order is kept, and under a newest-first input each kept pin is the newest with its key.

## Model

| member | source | states |
|---|---|---|
| Text.TrimStartShape | equip-prestart/api/login.js:7 | what the leading trim keeps is a suffix of the input that does not start with whitespace, and everything dropped is whitespace |
| Text.TrimEndShape | equip-prestart/api/login.js:7 | what the trailing trim keeps is a prefix of the input that does not end with whitespace, and everything dropped is whitespace |
| Text.Trim | equip-prestart/api/login.js:7-8 | `trim` never lengthens a string and leaves no whitespace at either end |
| Text.TrimEmptyIff | equip-prestart/api/submit.js:17 | a string trims to "" exactly when it is all whitespace |
| Text.TrimOf | equip-prestart/api/login.js:7-8 | trimming whitespace + core + whitespace, where the core has no whitespace at either end, gives back the core |
| Text.TrimParts | equip-prestart/api/login.js:7-8 | every string is whitespace + its trim + whitespace |
| Text.TrimIdempotent | equip-prestart/api/submit.js:17 | trimming twice is trimming once |
| Text.TrimIgnoresSurroundingSpace | equip-prestart/api/login.js:7 | whitespace added around a string does not change its trim |
| Text.Split | equip-prestart/api/map-data.js:9 | `split` on one character returns at least one piece, and no piece contains the separator |
| Text.SplitConcat | equip-prestart/api/map-data.js:9 | splitting `a + sep + b` is splitting `a` followed by splitting `b` |
| Text.SplitJoin | equip-prestart/api/map-data.js:9 | joining separator-free pieces with the separator and splitting again gives the pieces back |
| Text.JoinSplit | equip-prestart/api/map-data.js:9 | splitting a string and joining the pieces with the separator gives the string back |
| Text.Join | equip-prestart/api/login.js:26-33 | joining no parts gives "", and joining one part gives that part without any separator |
| Text.JoinSnoc | equip-prestart/api/login.js:26-33 | joining parts plus a last part is the join of the parts, the separator, then the last part |
| Text.JoinSix | equip-prestart/api/login.js:26-33 | joining six parts writes them out in order with the separator between neighbours |
| Text.TrimAll | equip-prestart/api/map-data.js:9 | each piece trimmed and kept at the same index, with the count unchanged |
| Text.TrimAllConcat | equip-prestart/api/map-data.js:9 | trimming the pieces of a concatenation is concatenating the trimmed pieces |
| Text.TrimmedPiecesOfJoin | equip-prestart/api/login.js:26-33 | splitting a `"; "`-join of trimmed parts without `;` at `;` and trimming the pieces recovers the parts |
| Text.NatToString | equip-prestart/api/login.js:32 | the decimal rendering of a number is non-empty and all digits |
| Login.IsFourDigits | equip-prestart/api/login.js:14 | a string accepted as four digits has length 4 and no whitespace at either end |
| Login.Handle | equip-prestart/api/login.js:1-40 | with `Supplied` and `Expected` the trimmed passcode and trimmed `MAP_PASSCODE` (a missing one read as ""): the status is one of 200, 400, 401, 405, 500; it is 200 exactly when the method is POST and the trimmed passcode is four digits equal to the trimmed configured passcode; a cookie is set exactly on 200 and is the session cookie; every other status carries an error |
| Login.MethodCheckedFirst | equip-prestart/api/login.js:2-4 | any method other than POST gets 405, whatever the passcode and configuration |
| Login.UnconfiguredFails | equip-prestart/api/login.js:8-12 | an unset or blank `MAP_PASSCODE` gets 500, whatever was supplied |
| Login.MalformedRejected | equip-prestart/api/login.js:14-16 | once configured, a passcode that is not exactly four digits after trimming gets 400 |
| Login.MismatchRejected | equip-prestart/api/login.js:18-20 | a well-formed wrong passcode gets 401 and no cookie |
| Login.NoSuccessWithMalformedExpected | equip-prestart/api/login.js:14-20 | if the configured passcode is not four digits, no request can log in |
| Login.SurroundingSpaceIrrelevant | equip-prestart/api/login.js:7 | whitespace around the supplied passcode never changes the response |
| Login.MaxAgeRendering | equip-prestart/api/login.js:23 | the session lifetime 60 * 60 * 8 renders as "28800" |
| Login.SessionCookieParsed | equip-prestart/api/login.js:26-33 | the cookie parts are `equip_map_auth=1`, `Path=/`, `HttpOnly`, `Secure`, `SameSite=Lax`, `Max-Age=28800` |
| Login.SessionCookieExact | equip-prestart/api/login.js:26-35 | the `Set-Cookie` value is exactly `equip_map_auth=1; Path=/; HttpOnly; Secure; SameSite=Lax; Max-Age=28800` |
| Logout.Handle | equip-prestart/api/logout.js:1-13 | every request gets 200 with a success body, and the `Set-Cookie` header is the clearing cookie |
| Logout.SameForEveryRequest | equip-prestart/api/logout.js:1-13 | the response does not depend on the request at all: there is no method check |
| Logout.ClearingCookieExact | equip-prestart/api/logout.js:2-11 | the `Set-Cookie` value is exactly `equip_map_auth=; Path=/; HttpOnly; Secure; SameSite=Lax; Max-Age=0` |
| MapData.CookieSegments | equip-prestart/api/map-data.js:8-9 | one segment per `;`-piece of the header, each one trimmed |
| MapData.Authorised | equip-prestart/api/map-data.js:8-9 | a request is authorised exactly when some `;`-piece of its `Cookie` header, an absent header reading as "", trims to `equip_map_auth=1` |
| MapData.MissingHeaderDenied | equip-prestart/api/map-data.js:8-9 | a request without a `Cookie` header is not authorised |
| MapData.SegmentOrderIrrelevant | equip-prestart/api/map-data.js:9 | the order of the cookies in the header does not matter |
| MapData.AppendedCookie | equip-prestart/api/map-data.js:9 | adding a cookie never revokes authorisation; one that trims to `equip_map_auth=1` grants it; any other cookie leaves the verdict unchanged |
| MapData.PlainText | equip-prestart/api/map-data.js:55-56 | no pieces give "", a single piece gives its text |
| MapData.PlainTextAppend | equip-prestart/api/map-data.js:55-56 | the plain text of concatenated pieces is the concatenation of their plain texts |
| MapData.GetText | equip-prestart/api/map-data.js:53-58 | a missing property reads as ""; otherwise the title's text when the title has pieces, else the rich text's |
| MapData.GetSelect | equip-prestart/api/map-data.js:60 | the selected option's name, or "" when the property or its selection is missing |
| MapData.GetNumber | equip-prestart/api/map-data.js:61 | a number is read exactly when the property exists and holds one, and it is that number |
| MapData.ReadBack | equip-prestart/api/map-data.js:53-61 | a property holding one title, rich-text, select or number value reads back as that value; a many-piece title reads as its pieces' texts in order |
| MapData.ExtractPin | equip-prestart/api/map-data.js:62-78 | the pin keeps the page id; an empty `created_time` becomes null and any other is kept; equipment is the select name, or the text when the select is empty; project is the select name of "Project"; latitude, longitude and accuracy are the numbers of "GPS Lat", "GPS Lon" and "GPS Accuracy (m)" |
| MapData.LocatedIffFiltered | equip-prestart/api/map-data.js:65-79 | with `Prop` reading a named property (none for a page without properties) and `Located` a pin with both coordinates: a pin has both coordinates exactly when the page has numbers for GPS Lat and GPS Lon |
| MapData.Extracted | equip-prestart/api/map-data.js:64-78 | one pin per page, the pin of the page at the same index |
| MapData.Filter | equip-prestart/api/map-data.js:79 | the filtered items all pass, every passing item is kept, nothing else appears, and there are no more of them than inputs |
| MapData.FilterPositions | equip-prestart/api/map-data.js:79 | the filtered items sit at strictly increasing positions of the input, and every passing input position is among them: the filter keeps the input order |
| MapData.FilterKeepsAll | equip-prestart/api/map-data.js:79 | when every item passes, the filter returns its input |
| MapData.LocatedPins | equip-prestart/api/map-data.js:64-79 | the filtered pins all have both coordinates; every located pin among the pages is kept; every kept pin comes from some page; there are at most as many pins as pages |
| MapData.FilterKeepsFilteredResults | equip-prestart/api/map-data.js:25-30 | when every page has both coordinates, as the query's filter asks, the located pins are exactly the extracted pins |
| MapData.LocatedPinsKeepOrder | equip-prestart/api/map-data.js:31-33 | when the pages come newest first, as the query's sort asks, the located pins still come newest first |
| MapData.Key | equip-prestart/api/map-data.js:84 | empty equipment is grouped as "Unknown"; other equipment by its trim; every key has no whitespace at either end |
| MapData.KeysOfBlankEquipment | equip-prestart/api/map-data.js:84 | equipment "" is grouped as "Unknown", but whitespace-only equipment is grouped as "", a different key |
| MapData.FirstPositions | equip-prestart/api/map-data.js:82-86 | the positions that are first with their key, all of them, in increasing order |
| MapData.FirstPerKey | equip-prestart/api/map-data.js:82-87 | the kept items are the items at the first positions of each key, in order |
| MapData.ScanStep | equip-prestart/api/map-data.js:83-86 | one loop step (insert the key when it is new, otherwise skip) preserves the loop invariant |
| MapData.KeepFirstPerKey | equip-prestart/api/map-data.js:82-87 | the `Map`-filling loop followed by `Map.values()` returns exactly `FirstPerKey` |
| MapData.LatestPerEquipment | equip-prestart/api/map-data.js:81-87 | the loop keyed by trimmed equipment (or "Unknown") returns `FirstPerKey` of the pins under that key |
| MapData.KeptKeysDistinct | equip-prestart/api/map-data.js:82-87 | no two kept items share a key |
| MapData.KeptPositions | equip-prestart/api/map-data.js:82-87 | each kept item is the first input item with its key, and the kept items keep the input order |
| MapData.EveryKeyCovered | equip-prestart/api/map-data.js:82-87 | every key of the input appears among the kept items |
| MapData.FirstWithKeyAtOrBefore | equip-prestart/api/map-data.js:82-86 | every item has a first item with its key at or before it |
| MapData.StringLessIrreflexive | equip-prestart/api/map-data.js:32 | no timestamp is strictly newer than itself |
| MapData.KeptAreNewest | equip-prestart/api/map-data.js:31-33 | when the pins come newest first, as the query's sort asks, no pin with the same key is newer than the kept one |
| MapData.ReportedPinsNewest | equip-prestart/api/map-data.js:31-87 | when the pages come newest first, no located page has a pin newer than the reported pin with the same equipment key |
| MapData.KeptLocated | equip-prestart/api/map-data.js:79-87 | keeping the first per key keeps only located pins |
| MapData.Admit | equip-prestart/api/map-data.js:1-35 | a non-GET gets 405; without the session cookie, 401; without the token or database id, 500 with "Missing NOTION_TOKEN or NOTION_DATABASE_ID"; otherwise the query of 100 rows goes out with the configured token and database id, and only then |
| MapData.Handle | equip-prestart/api/map-data.js:1-89 | an early reply is returned as is; a rejected query passes its status and body through; a delivered one gives 200 with the first located pin per equipment and their count; every pin returned has both coordinates; when the pages come newest first, each pin returned is the newest located one with its key |
| Submit.Field | equip-prestart/api/submit.js:17-28 | a text field is trimmed, never longer than its input, and empty exactly when the input is missing or all whitespace |
| Submit.Valid | equip-prestart/api/submit.js:35 | a body is valid exactly when the employee name is not all whitespace, project and equipment are non-empty, and `defectsFound` is a non-empty array |
| Submit.ToNumber | equip-prestart/api/submit.js:42-45 | a numeric field is null exactly when its raw value is absent, null or ""; otherwise the raw value is converted |
| Submit.RichText | equip-prestart/api/submit.js:59-61 | an empty string gives no items; a non-empty one gives a single item with that text |
| Submit.Options | equip-prestart/api/submit.js:81-83 | one option per finding, in order, each named by it |
| Submit.Admit | equip-prestart/api/submit.js:1-105 | a non-POST gets 405; a missing token or database id gets 500 before the body is read; an invalid body gets 400; otherwise the page goes out with the configured token, database id and the mapped properties, and only then |
| Submit.Finish | equip-prestart/api/submit.js:107-120 | a rejected create passes its status and body through; a successful one gives 200 with the page id and whether the findings include "Yes. DO NOT OPERATE." |
| Submit.Handle | equip-prestart/api/submit.js:1-120 | the outcome case by case: 405, 500, 400 with the listed missing fields, the upstream error passed through, or 200 with the page id and the do-not-operate flag for the findings |
| Submit.ConfigurationCheckedBeforeBody | equip-prestart/api/submit.js:7-14 | with the Notion settings missing, the 500 reply is the same for every body |
| Submit.ValidationBeforeUpstream | equip-prestart/api/submit.js:34-40 | an invalid body gets 400 whatever Notion would answer, so Notion is not called |
| Submit.NonArrayDefectsRejected | equip-prestart/api/submit.js:26 | with `Defects` the array of findings or [] for anything else: a `defectsFound` that is not an array counts as no findings and is refused |
| Submit.Properties | equip-prestart/api/submit.js:49-90 | the title is a single item, and there is one selected option per finding |
| Submit.PropertiesSpec | equip-prestart/api/submit.js:49-90 | the title is the trimmed comment or "New submission"; project and equipment are sent untrimmed; each rich-text field is empty exactly when its trimmed input is, and otherwise is one item holding that trimmed input; each numeric field is null exactly when its raw value is absent, null or ""; the findings are the selected options, in order |
| Submit.RichTextClean | equip-prestart/api/submit.js:23-28 | a rich-text field built from a trimmed input holds only non-empty trimmed text |
| Submit.TitleClean | equip-prestart/api/submit.js:50-58 | the title always holds non-empty trimmed text |
| Submit.TextShapes | equip-prestart/api/submit.js:49-90 | the title is one item, and every text item sent is non-empty and trimmed |
| Submit.DoNotOperateOnlyAfterCreate | equip-prestart/api/submit.js:107-120 | a success body appears exactly when the page was created, and only then does it carry the do-not-operate flag, true exactly when the findings hold the marker |
| Session.PairsAgree | equip-prestart/api/login.js:27 | the pair set at login is the pair `map-data.js` accepts; the logout pair has the same cookie name and an empty value |
| Session.SameCookieAttributes | equip-prestart/api/logout.js:2-9 | the logout cookie has the login cookie's path and flags, so it replaces it; only the value and the lifetime differ |
| Session.SegmentsOfJoin | equip-prestart/api/map-data.js:9 | the map endpoint's cookie parser recovers every part of a `"; "`-joined cookie whose parts are trimmed and contain no `;` |
| Session.SessionCookieSegments | equip-prestart/api/login.js:26-33 | read with the map endpoint's parser, the login `Set-Cookie` value splits into its parts and is authorised |
| Session.ClearingCookieSegments | equip-prestart/api/logout.js:2-9 | read the same way, the logout `Set-Cookie` value splits into its parts and is not authorised |
| Session.LoggedInBrowserAdmitted | equip-prestart/api/map-data.js:9 | a browser sending the session pair, alone or after other cookies joined with ";" or "; ", is authorised |
| Session.LoggedOutBrowserRefused | equip-prestart/api/map-data.js:9 | the logout pair alone is refused, and adding it after other cookies, with ";" or "; ", never changes their verdict |

## Left out

- `equip-prestart/api/config.js` is not part of this model.
- The network call to Notion, `resp.json()` and `JSON.stringify` are out of scope. The upstream call is a function parameter that returns an already-parsed reply. The request is kept as a structured value, not as a JSON text. The URL and the `Notion-Version` header are constants of that call and are not modelled.
- `JSON.parse` of a string body is not modelled. The body reaches the model already parsed into fields.
- Each handler's catch-all `500` with `String(err)` is left out. It covers thrown exceptions: invalid JSON, a network failure, a non-string field reaching `.trim()`, and so on. The model does not throw.
- A body field that is present but not a string (a number or an object in `employeeName`, `passcode`, `project`, ...) is not modelled. String fields are `Option<string>`, with `None` for missing or falsy. `String(...)` applied to a non-string passcode in `login.js` is left out for the same reason.
- Submit.ToNumber: `Number(raw)` itself is not evaluated. The request records the raw value that would be converted, so NaN, and its `null` rendering in JSON, is not modelled.
- The elements of `defectsFound` are modelled as strings. Non-string array elements are not modelled.
- Notion's server side (the `filter`, the `sorts` by "Created time", the `page_size` of 100) is not modelled. The query is kept as its token, database id and page size. The filter enters only as the precondition of `MapData.FilterKeepsFilteredResults`. The sort enters as the newest-first precondition of `MapData.LocatedPinsKeepOrder` and `MapData.ReportedPinsNewest`, and as the condition of the last `ensures` of `MapData.Handle`; all three assume it of the extracted pins of the returned pages. `MapData.KeptAreNewest` assumes newest-first order of any pin sequence it is given.
- MapData.Newer: Notion's ISO-8601 `created_time` strings are compared lexicographically. This is the order those timestamps sort in. Time zones and other formats are not modelled.
- Pages whose `properties` hold values outside the handler's readers (`title`, `rich_text`, `select`, `number`) only carry those four readings. Other Notion property types are not modelled.
- Text.NatToString: agrees with JavaScript's rendering of a number only below 2^53. Above that the double loses digits, and from 1e21 up JavaScript uses exponent form. The handlers render only 28800.
- Strings are sequences of Unicode scalar values, not UTF-16 code units. A lone surrogate cannot be represented. The handlers compare only whole strings and ASCII literals.
- Cookie expiry over time, and the browser's cookie store, are not modelled. The session lemmas speak about the header values only.
- Logout.Handle does not model the ignored request, apart from the method. `SameForEveryRequest` states that the method makes no difference.
