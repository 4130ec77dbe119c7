# XML-RPC messages in Dafny

A model of the Ruby library `xmlrpc` (module `XmlRpc::API`). The library reads
and writes XML-RPC messages, the wire format described at xmlrpc.com.

- **Value codec.** `Message.parse_value` turns a `<value>` element into a Ruby value. `Message.build_value` appends the typed element for a value to a `Builder::XmlMarkup`.
- **Base64 wrapper.** `XmlRpc::API::Value` holds base64 data. It encodes on creation and decodes on demand.
- **Messages.** `Request` (`<methodCall>`) and `Response` (`<methodResponse>`) each check their construction options. They then either keep a given document or build one. Their readers memoise what they read: the method name, the parameters, the value, the fault code and the fault string.
- **Faults.** `Fault` is the exception a handler raises. It is written as a two-member struct.
- **Dispatch.** `Base.handle_request` looks a method name up in a whitelist, calls the handler and turns whatever it returns or raises into a response.

Modules, one per file:

| file | module | what it holds |
|---|---|---|
| `wrappers.dfy` | `Wrappers` | `Option`, `Result` and the Ruby errors (`ValueError`, `RequestError`, any other error) |
| `text.dfy` | `Text` | `Integer#to_s`, `String#to_i`, `String#chomp`, `blank?` on strings |
| `xml.dfy` | `Xml` | the element tree, its rendering with indentation 0, child selection, and the builder as a class `Markup` whose methods append to its `target` text |
| `base64.dfy` | `Base64` | `Base64.encode64` (section 4 of RFC 4648 with padding, lines of 60 characters each ended by a line feed as in section 6.8 of RFC 2045), decoding, and the class `Base64Value` (`XmlRpc::API::Value`) |
| `dates.dfy` | `Dates` | the `full-date` and `date-time` forms of section 5.6 of RFC 3339 that `build_value` writes, and reading them back |
| `values.dfy` | `Values` | the `Value` datatype, `parse_value` as functions, `build_value` as methods appending to a `Markup`, and the round trip |
| `envelopes.dfy` | `Envelopes` | `Fault`, and the classes `Request` and `Response` with option-typed cache fields |
| `dispatch.dfy` | `Dispatch` | `handle_request` as intended and as written |

XML is a tree of `Node(name, text, children)`. An empty `text` stands for "no
text node", which is what REXML's `Element#text` reports as `nil`. Reading back
the text the builder wrote is modelled as the tree the text renders: a document
built from options is `Document(Some(tree))`. A document passed in as `:xml`
or `:doc` is a given tree.

`build_value` is a method. Every call appends to one shared builder, and its
contract ties the builder's new text to the rendering of `ValueNodes(v)`.
`parse_value` only accumulates into local arrays and hashes, so it is a set of
pure functions. A Ruby `Hash` keeps insertion order and overwrites repeated
keys. It is a `seq<Member>` updated by `Put`.

A memoised reader (`@x ||= ...`) keeps a result only when the result is
truthy. Each class has a `Valid()` predicate saying every filled cache holds
what the document gives. Each reader method returns exactly the reading
function's result and keeps `Valid()`.

## Model

| member | source | states |
|---|---|---|
| Text.ToIShowInt | lib/xmlrpc.rb:183-184 | `to_i` of the decimal text `Integer#to_s` writes (as `builder.int "#{param}"` does) gives back the integer, negative numbers included |
| Text.DigitsValueShowNat | lib/xmlrpc.rb:224-225 | the decimal digits of a natural number denote that number |
| Text.ChompRemovesLineEnd | lib/xmlrpc.rb:402-406 | `chomp` removes only line-terminator characters, and leaves text that does not end in one unchanged |
| Text.ChompNewline | lib/xmlrpc.rb:405-406 | a single line feed appended to text not ending in CR is exactly what `chomp` removes |
| Xml.RenderAllAppend | lib/xmlrpc.rb:220-260 | the text of a node list is the concatenation of the texts of its parts, so appending elements to the builder concatenates their texts |
| Xml.FirstNamed | lib/xmlrpc.rb:304 | `elements["name"]` picks the first child with that name: every child before it has another name |
| Xml.Named | lib/xmlrpc.rb:197 | a path step keeps only children with the step's name, each one a child of the context |
| Xml.NamedComplete | lib/xmlrpc.rb:197 | a path step misses no child: every node of the context with the step's name is selected |
| Xml.NamedAppend | lib/xmlrpc.rb:197 | a path step keeps document order: the matches among earlier nodes come before those among later ones |
| Xml.Where | lib/xmlrpc.rb:363 | the predicate `[name='k']` keeps only nodes having a `name` child whose string value is `k` |
| Xml.WhereComplete | lib/xmlrpc.rb:363 | the predicate misses no node having a `name` child whose string value is `k` |
| Xml.WhereAppend | lib/xmlrpc.rb:363 | the predicate keeps document order the same way |
| Xml.Markup.Open | lib/xmlrpc.rb:237-238 | entering a builder block appends the start tag |
| Xml.Markup.Close | lib/xmlrpc.rb:244-245 | leaving a builder block appends the end tag |
| Xml.Markup.Tag | lib/xmlrpc.rb:229-235 | `tag!(name, text)` appends the element holding that text |
| Base64.SextetOfChar64 | lib/xmlrpc.rb:398 | each of the 64 alphabet characters decodes to its own index |
| Base64.GroupRoundTrip | lib/xmlrpc.rb:398-402 | decoding the sextets of one group of 1 to 3 bytes, padding included, gives the group back |
| Base64.StrictRoundTrip | lib/xmlrpc.rb:398-402 | decoding the unbroken encoding of any bytes gives the bytes back |
| Base64.Decode64Encode64 | lib/xmlrpc.rb:397-402 | `decode64(encode64(d)) == d` for all bytes, line breaks included |
| Base64.Decode64Chomp | lib/xmlrpc.rb:402-406 | removing the final line terminator does not change what the text decodes to |
| Base64.StrictEncodeLength | lib/xmlrpc.rb:398 | the unbroken encoding has 4 characters for every started group of 3 bytes |
| Base64.StrictEncodeShape | lib/xmlrpc.rb:398 | the unbroken encoding never ends in CR or LF |
| Base64.TextSextetsWrap | lib/xmlrpc.rb:398 | breaking the encoding into lines changes nothing the decoder reads |
| Base64.ChompEncode64 | lib/xmlrpc.rb:405-406 | `encode64` of no bytes is empty; otherwise it ends in exactly one line feed that `chomp` removes, and for at most 45 bytes `to_s` is the unbroken encoding |
| Base64.ChompWrap | lib/xmlrpc.rb:398 | the line-broken text ends in one line feed, and a text of at most 60 characters is a single line |
| Base64.DecodedOfEncoded | lib/xmlrpc.rb:391-402 | `decoded_value` of a wrapper made from `d` is `d` chomped, which is `d` itself unless `d` ends in CR or LF |
| Base64.DecodedOfShown | lib/xmlrpc.rb:234-235 | the text `to_s` shows (and `build_value` writes into `<base64>`) decodes to the same bytes as the stored encoding |
| Base64.Base64Value.Init | lib/xmlrpc.rb:391-395 | the kind is `:base64`, and the stored encoding is `encode64(data)`, or none without data |
| Base64.Base64Value.New | lib/xmlrpc.rb:391-395 | any kind but `:base64` is a ValueError "Unsupported value type KIND", and `:base64` gives a fresh wrapper holding the encoding of the data |
| Base64.Base64Value.EncodeValue | lib/xmlrpc.rb:397-399 | the stored encoding becomes `encode64(data)` |
| Base64.Base64Value.ToS | lib/xmlrpc.rb:405-407 | `to_s` is empty when nothing is stored; otherwise it is the stored text less at most two trailing line-terminator characters, exactly the stored text less its final line feed when that ends it alone, and it decodes to what `decoded_value` gives |
| Base64.EncodeEndsInLineFeed | lib/xmlrpc.rb:397-399 | the encoding `encode_value` stores for data ends in a line feed with no carriage return before it, so `to_s` drops exactly that line feed |
| Dates.FieldTwo | lib/xmlrpc.rb:231 | a two-digit `strftime` field reads back as its number |
| Dates.FieldFour | lib/xmlrpc.rb:233 | a four-digit year field reads back as the year |
| Dates.ParseFormattedDate | lib/xmlrpc.rb:233 | `strftime("%Y-%m-%d")` of a valid date is 10 characters long and reads back as that date |
| Dates.ParseFormatDate | lib/xmlrpc.rb:189-190 | `DateTime.parse` of a written `Date` gives midnight UTC of that day |
| Dates.ParseFormatZone | lib/xmlrpc.rb:231 | the written zone, `Z` or `+HH:MM`/`-HH:MM`, reads back as the offset |
| Dates.ParseFormatTimestamp | lib/xmlrpc.rb:189-190 | `DateTime.parse` of every written `DateTime` gives back its date, time of day and offset |
| Dates.ParseShortClock | lib/xmlrpc.rb:189-190 | a time of day written `HH:MM`, without seconds, reads as that hour and minute with 0 seconds |
| Values.IndexOfKey | lib/xmlrpc.rb:204 | the position found holds the key; when none is found, no member has that key |
| Values.IndexOfKeyFirst | lib/xmlrpc.rb:204 | the position found is the first member with the key |
| Values.PutLookup | lib/xmlrpc.rb:204 | `h[k] = v` makes `k` read `v`, leaves every other key alone at its position, keeps keys distinct; a present key keeps its place (the names in order are unchanged), and a new key is appended last |
| Values.ParseUntyped | lib/xmlrpc.rb:210-212 | a `<value>` without a child element is its own text, or `nil` when it has none |
| Values.ParseTags | lib/xmlrpc.rb:179-208 | only the first child's tag decides: `int` and `i4` read the same integer with `to_i`; `boolean` is true exactly for the text "1" or "true"; an unknown tag is a ValueError "Unknown data type in value: TAG"; the scalar tags never fail |
| Values.ParseDateTag | lib/xmlrpc.rb:189-190 | the `dateTime.iso8601` branch taken alone, stated to keep the round-trip proofs small: the element reads as `DateTime.parse` of its text and fails exactly when that fails |
| Values.ParseArrayTag | lib/xmlrpc.rb:195-200 | the `array` branch taken alone, stated to keep the round-trip proofs small: the element reads as the list of the values under its `data` children, and fails when one of them fails |
| Values.ParseStructTag | lib/xmlrpc.rb:201-206 | the `struct` branch taken alone, stated to keep the round-trip proofs small: the element reads as its members stored one by one into an empty hash |
| Values.ParseDataAppend | lib/xmlrpc.rb:195-200 | the items of an array are read in document order, each `data/value` in turn |
| Values.ParseRepeatedKey | lib/xmlrpc.rb:201-206 | for any struct, one more `<member>` is stored into the hash read so far with `h[k] = v`, its value read back in normal form |
| Values.ParseMembersSnoc | lib/xmlrpc.rb:201-206 | the members are read one after the other: reading one more member starts from the hash the earlier ones built |
| Values.RepeatedKeyKeepsPlace | lib/xmlrpc.rb:201-206 | a member whose name the struct already holds overwrites that entry in place: the names keep their order and the name reads the new value |
| Values.ItemNodesAppend | lib/xmlrpc.rb:239-243 | the items written for a list are those of its parts, in order |
| Values.MemberNodesAppend | lib/xmlrpc.rb:248-255 | the members written for a hash are those of its parts, in order |
| Values.ItemNodesSingle | lib/xmlrpc.rb:239-243 | a `nil` item writes nothing, and any other item one `<value>` |
| Values.MemberNodesSingle | lib/xmlrpc.rb:248-255 | a `nil` entry writes nothing, and any other entry one `<member>` |
| Values.BuildValue | lib/xmlrpc.rb:220-260 | `build_value` appends to the builder exactly the rendering of the value's element, and nothing for `nil` |
| Values.BuildArray | lib/xmlrpc.rb:236-245 | appends `<array><data>` with a `<value>` per non-nil item, in order |
| Values.BuildItem | lib/xmlrpc.rb:240-242 | appends `<value>` around the item, or nothing for `nil` |
| Values.BuildStruct | lib/xmlrpc.rb:246-256 | appends `<struct>` with a `<member>` per non-nil entry, in insertion order |
| Values.BuildMember | lib/xmlrpc.rb:249-254 | appends `<member><name>K</name><value>...</value></member>`, or nothing for a `nil` value |
| Values.RoundTrip | lib/xmlrpc.rb:177-260 | reading the `<value>` written for any value gives the value as `Normalize` describes it: empty strings become `nil`, a `Date` becomes midnight UTC, `nil` items and members are gone |
| Values.ItemsRoundTrip | lib/xmlrpc.rb:195-200 | the `<value>`s written for a list read back as the list without its `nil`s |
| Values.MembersRoundTrip | lib/xmlrpc.rb:201-206 | the members written for a hash with distinct keys read back as the hash without its `nil` entries, in order |
| Values.NormalizePlain | lib/xmlrpc.rb:177-260 | values of non-empty strings, integers, booleans and nested nil-free arrays and hashes are their own normal form |
| Values.ExactRoundTrip | lib/xmlrpc.rb:177-260 | for nil-free values of non-empty strings, integers, booleans and nested arrays and hashes with distinct keys, `parse_value` of the written `<value>` returns the original |
| Values.BlankNormalize | lib/xmlrpc.rb:356-358 | a scalar is blank exactly when what reads back is blank |
| Values.Base64RoundTrip | lib/xmlrpc.rb:191-194 | `<base64>` is read undecoded into a wrapper, and that wrapper decodes to the written bytes chomped (to nothing for no bytes) |
| Values.Base64Written | lib/xmlrpc.rb:234-235 | `build_value` of a base64 wrapper writes exactly its `to_s` inside `<base64>`: `<value><base64>TEXT</base64></value>` |
| Values.ParseExamples | lib/xmlrpc.rb:179-212 | implicit string "value", `boolean` "true" and `double` "1.1" read as the message specification expects |
| Values.ParseIntExamples | lib/xmlrpc.rb:183-184 | an `int` or an `i4` element with text "1" reads as the integer 1 |
| Values.ScalarText | lib/xmlrpc.rb:221-258 | a string is written as `<string>TEXT</string>`, a boolean as `<boolean>true</boolean>` or `<boolean>false</boolean>`, an integer as `<int>` around its decimal digits |
| Values.BuildIntExample | lib/xmlrpc.rb:224-225 | 1 is written as `<int>1</int>` |
| Values.ParseDateExample | lib/xmlrpc.rb:189-190 | "2001-01-01T13:01" reads as 13:01:00 UTC on 1 January 2001 |
| Envelopes.BuildFault | lib/xmlrpc.rb:71-80 | `build_xml` appends `<fault><value>` around the struct of code and string |
| Envelopes.FaultText | lib/xmlrpc.rb:71-80 | the fault text is the rendering of the fault element |
| Envelopes.ParamNodes | lib/xmlrpc.rb:287-293 | one `<param>` per parameter, at its own position |
| Envelopes.RequestOptionsRules | lib/xmlrpc.rb:277-299 | construction fails exactly when a document comes with `:method`, or neither a document nor both `:method` and `:params` are given; every failure is a RequestError, and `:xml` is kept as given |
| Envelopes.ParamsRoundTrip | lib/xmlrpc.rb:308-311 | the `<param>`s written for the parameters read back as each parameter's normal form, with `nil` where it was |
| Envelopes.NormalizeParams | lib/xmlrpc.rb:308-311 | same length, and each parameter in its normal form at its own position |
| Envelopes.RequestRoundTrip | lib/xmlrpc.rb:282-311 | a request built from a method name and parameters reads back the name (`nil` when empty) and one value per parameter, `nil` kept at its index |
| Envelopes.MethodNameRoundTrip | lib/xmlrpc.rb:304 | the written `<methodName>` reads back as the name |
| Envelopes.RequestParamsRoundTrip | lib/xmlrpc.rb:309-311 | the written `params/param` read back as the parameters |
| Envelopes.RequestParamNodes | lib/xmlrpc.rb:286-293 | `params/param` of a written request is the list of written `<param>`s |
| Envelopes.Request.Of | lib/xmlrpc.rb:162-170 | keeps the raw text and the document, with nothing memoised yet |
| Envelopes.Request.New | lib/xmlrpc.rb:277-299 | fails exactly as the construction rules say, with their RequestError, and otherwise gives a fresh request holding the kept or built message |
| Envelopes.Request.Method | lib/xmlrpc.rb:303-305 | `method` returns what the document's `<methodName>` reads as; afterwards the method cache holds that reading exactly when it is truthy (nothing otherwise), and the params cache is unchanged |
| Envelopes.Request.Params | lib/xmlrpc.rb:308-312 | `params` returns the reading of each `params/param`; afterwards the params cache holds it exactly when the reading succeeded, and the method cache is unchanged |
| Envelopes.BuildRequest | lib/xmlrpc.rb:283-295 | the builder appends `<methodCall>` with `<methodName>` and `<params>` |
| Envelopes.BuildParams | lib/xmlrpc.rb:286-294 | appends `<params>` with one `<param>` per parameter, in order |
| Envelopes.BuildParam | lib/xmlrpc.rb:288-292 | appends `<param>`, with a `<value>` inside unless the parameter is `nil` |
| Envelopes.ResponseOptionsRules | lib/xmlrpc.rb:329-352 | construction fails exactly when `:xml` comes with a `:value` key or a `:fault`, or none of the three is given; every failure is a RequestError, and `:fault` wins over `:value` |
| Envelopes.FaultMembers | lib/xmlrpc.rb:361-370 | `fault/value/struct/member` of a fault response is its two members |
| Envelopes.MemberNodeNamed | lib/xmlrpc.rb:361-370 | `[name='k']` holds of a member exactly when `k` is its name |
| Envelopes.FaultWhere | lib/xmlrpc.rb:361-370 | the XPath selects the one member named `faultCode` (or `faultString`), whichever order the members are in |
| Envelopes.FaultFieldNode | lib/xmlrpc.rb:361-370 | the path reaches the `<value>` of that member |
| Envelopes.FaultReaders | lib/xmlrpc.rb:356-375 | in either member order, `fault_code` reads the code and `fault_string` the string (`nil` when empty), `is_valid?` is false and `error` is "STRING (CODE)" |
| Envelopes.FaultVerdict | lib/xmlrpc.rb:355-375 | a response whose fault code is an integer is not valid, and its error is the fault string followed by the code in parentheses |
| Envelopes.NoFaultVerdict | lib/xmlrpc.rb:355-375 | a response with `nil` fault code and fault string is valid and has no error |
| Envelopes.FaultResponseRoundTrip | lib/xmlrpc.rb:334-375 | a response built with a fault, whatever `:value` holds, reads back its code and string, has no value, is not valid, and has error "STRING (CODE)" |
| Envelopes.ValueResponseRoundTrip | lib/xmlrpc.rb:334-379 | a response built with a value and no fault reads the value back in normal form (`nil` for `nil`), has `nil` fault code and string, is valid and has no error |
| Envelopes.ValueResponseValue | lib/xmlrpc.rb:377-379 | `value` of a written value response is the value in normal form |
| Envelopes.ValueResponseNoFault | lib/xmlrpc.rb:360-370 | a written value response has no `fault`, so `fault_code` and `fault_string` are `nil` |
| Envelopes.FaultResponseNoValue | lib/xmlrpc.rb:377-379 | a written fault response has no `params`, so `value` is `nil` |
| Envelopes.FaultExample | lib/xmlrpc.rb:356-375 | the response-specification fault with `faultString` first reads code 4, the string "Too many parameters.", is not valid, and has error "Too many parameters. (4)" |
| Envelopes.Response.Of | lib/xmlrpc.rb:162-170 | keeps the raw text and the document, with nothing memoised yet |
| Envelopes.Response.New | lib/xmlrpc.rb:329-352 | fails exactly as the construction rules say, with their RequestError, and otherwise gives a fresh response holding the kept or built message |
| Envelopes.Response.FaultCode | lib/xmlrpc.rb:361-364 | returns what `fault_code`'s path reads (`nil` without a root); afterwards its cache holds that reading exactly when it is truthy (nothing otherwise), and the other two caches are unchanged |
| Envelopes.Response.FaultString | lib/xmlrpc.rb:367-370 | returns what `fault_string`'s path reads (`nil` without a root); afterwards its cache holds that reading exactly when it is truthy (nothing otherwise), and the other two caches are unchanged |
| Envelopes.Response.Value | lib/xmlrpc.rb:378-380 | returns what the first `params/param/value` reads; afterwards its cache holds that reading exactly when it is truthy (nothing otherwise), and the other two caches are unchanged |
| Envelopes.Response.IsValid | lib/xmlrpc.rb:356-358 | true exactly when the fault code is blank and so is the fault string; afterwards the code cache holds the truthy code reading, the string cache the truthy string reading when the code was read as blank (unchanged otherwise), and the value cache is unchanged |
| Envelopes.Response.Error | lib/xmlrpc.rb:373-375 | "STRING (CODE)" unless the code is blank, and `nil` otherwise; afterwards the code cache holds the truthy code reading, the string cache the truthy string reading when the code was read as not blank (unchanged otherwise), and the value cache is unchanged |
| Envelopes.BuildResponse | lib/xmlrpc.rb:335-348 | the builder appends `<methodResponse>` holding the fault, or `<params><param>` with the value |
| Dispatch.Rescue | lib/xmlrpc.rb:134-139 | an exception becomes a fault with its message and code -1 for a ValueError, 0 for anything else |
| Dispatch.AsWrittenDiffers | lib/xmlrpc.rb:127-140 | where a ValueError is raised, the written code fails with the NameError for `e` while the intended code answers fault -1; everywhere else the two agree |
| Dispatch.HandleRequestResponds | lib/xmlrpc.rb:127-140 | every response `handle_request` asks for can be constructed |
| Dispatch.HandleRequestShape | lib/xmlrpc.rb:127-140 | every response `handle_request` asks for carries no `:xml` and holds a value or a fault |
| Dispatch.UnknownMethod | lib/xmlrpc.rb:129-130 | a method name missing from the whitelist gives fault -2 "Unknown method", whatever the handler would do |
| Dispatch.HandlerOutcome | lib/xmlrpc.rb:131-139 | the handler is called with the mapped name and the parameters; a returned value becomes the response's value, a raised Fault is kept unchanged, a ValueError gives code -1, anything else code 0 |
| Dispatch.ReaderErrors | lib/xmlrpc.rb:129-139 | an error reading the method name or the parameters is answered with a fault: -1 for a ValueError, 0 otherwise |
| Dispatch.HandleBuiltRequest | lib/xmlrpc.rb:129-133 | a request the builder wrote for a whitelisted name reaches the handler with its parameters as they read back, in order |
| Dispatch.RespondReads | lib/xmlrpc.rb:133-139 | a returned value reads back as the response value with the response valid; a raised Fault reads back its code and string; a ValueError reads code -1 and any other error code 0; every raised error makes the response not valid |
| Dispatch.ValueErrorCounterexample | lib/xmlrpc.rb:136-137 | a handler raising a ValueError makes the written code fail while the intended code answers fault -1 with the message |
| Dispatch.HandleTextAsWritten | lib/xmlrpc.rb:127-140 | given request text instead of a `Request`, `request.method` is `Object#method` without a name, whose ArgumentError becomes a code-0 fault; the text is never read |
| Dispatch.HandleText | lib/xmlrpc.rb:127-140 | request text read as `Request.new(:xml => text)` and handled as that request |
| Dispatch.HandleBuiltText | lib/xmlrpc.rb:129-133 | request text whose tree the builder wrote for a whitelisted name reaches the handler with the parameters as they read back |
| Dispatch.RawTextCounterexample | lib/xmlrpc.rb:129 | for the text of a call to an `add` handler that returns 3, the written code answers the ArgumentError as fault code 0 while the intended dispatch answers the value 3 |

## Left out

- `send_request`: HTTP, SSL and the network status are I/O, and are not part of this model.
- The Rails parameter-parser registration and the `XmlSimple` patch are plumbing over libraries not shown, and are not part of this model.
- REXML's parsing of text is not part of this model. The `:xml` option carries the text together with the tree REXML would read from it. A built message is read back as the tree it renders. So the round trips (Values.RoundTrip, Values.ExactRoundTrip and those built on them) hold only for text that parses back unchanged: REXML turns a carriage return, alone or before a line feed, into a line feed, and Builder replaces characters XML cannot carry, so a string holding either does not read back as written.
- Builder's character escaping and the `:indent` option are not modelled. Rendering is indentation 0, which is the default.
- `Message.new` on its own (its ValueError when neither `:xml` nor `:doc` is given) is not modelled. `Request` and `Response` never call it without one of them.
- `double` values are kept as the token text: `to_f` and `Float#to_s` are floating point.
- `Time` values and `Time#iso8601` are left out of `Value`.
- Values.ParseTyped: `DateTime.parse` is modelled only on the forms `build_value` writes (`YYYY-MM-DD`, `YYYY-MM-DDTHH:MM` and `YYYY-MM-DDTHH:MM:SS`, then `Z` or `+HH:MM`/`-HH:MM`). Any other text is an "invalid date" error, where Ruby's heuristics may accept it.
- Dates.ValidDate: only years up to 9999 of the proleptic Gregorian calendar. Ruby's switch to the Julian calendar before 1582 is not modelled.
- Base64.Decode64: decodes the alphabet characters and skips everything else. Ruby's lenient handling of stray padding in the middle of the text is not modelled.
- Text.ToI: underscores between digits, which `to_i` accepts, are not modelled.
- Values.ParseMembers: a `<name>` without text gives Ruby the key `nil`; the model uses the key "".
- Values.Display: `"#{v}"` of an array or hash is shown as "", not Ruby's `inspect` form.
- Dispatch.Rescue: the backtrace that the last rescue clause appends to the message of a code-0 fault is runtime introspection. The model keeps the message alone, which is also what the base specification expects.
- Dispatch.HandleRequest: reflective `controller.send` is a handler function from the mapped name and the parameters to an outcome. The request is modelled by its parsed document. The base specification passes raw XML text instead of a `Request`; nothing in `handle_request` reads that text (see "## Findings"), and Dispatch.HandleTextAsWritten models what then happens.
- Envelopes.FaultNode: the code writes `faultCode` before `faultString`, because Ruby hashes keep insertion order. The response and base specifications expect `faultString` first. The model follows the code, and the readers are proved to give the same result for either order.
- The concrete byte strings of the base64 specification, the array example of the message specification, and the full `<methodResponse>` texts of the base specification are not stated as lemmas. The general round-trip and builder lemmas cover them.

## Findings

| source | as written | input that shows it | evidently intended | confidence | as-written member | corrected member |
|---|---|---|---|---|---|---|
| lib/xmlrpc.rb:136-137 | `rescue ValueError => v` builds the fault from `e.message`, but only the next clause binds `e`, so a NameError escapes `handle_request` | a whitelisted handler that raises a ValueError, or a request whose method name holds an unknown type element | a fault response with code -1 and the ValueError's message, as the comment at lines 58-60 says | high; not executed | Dispatch.HandleRequestAsWritten (shown by Dispatch.ValueErrorCounterexample) | Dispatch.HandleRequest (proved by Dispatch.HandlerOutcome, Dispatch.ReaderErrors) |
| lib/xmlrpc.rb:129 | `request.method` is called on whatever `request` is; the base specification passes the request's XML text, and `String#method` is `Object#method`, which needs a method name, so an ArgumentError is rescued into a code-0 fault and the handler is never called | the text of a call to `add` with the parameters 1 and 2, passed as at spec/models/xmlrpc_base_spec.rb:22 | the text read as a request (`Request.new(:xml => text)`) and dispatched, so that the response holds 3 as the specification expects | medium (the specification may instead be the part in error); not executed | Dispatch.HandleTextAsWritten (shown by Dispatch.RawTextCounterexample) | Dispatch.HandleText (proved by Dispatch.HandleBuiltText) |

