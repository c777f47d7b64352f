# sdklite/net HTTP data layer in Dafny

This project models the data layer of the sdklite/net Java library and proves properties of that model. The library uses this layer to describe HTTP traffic before any connection is opened. The model covers four groups of classes.

- **Media types** (`MimeType`). `parse` is a regex-driven scanner over `TOKEN/TOKEN` followed by `;`-separated parameters. The constructor validates its parts and keeps the parameters in a `TreeMap` whose comparator treats every spelling of `charset` as one key. `hasParameter`, `getParameter` and `getCharset` look parameters up in that map, and `toString` renders the canonical string.
- **Headers and messages** (`HttpHeaders`, `HttpMessage`, `HttpRequest`, `HttpResponse`, `HttpMethod`):
  - header parsing and the `Content-Length` lookup;
  - the case-insensitive grouping of a message's headers;
  - the builders, which share their header list with the message they build;
  - the method and status-code classifications and `isSecure`.
- **Multipart bodies** (`Part`, `PartBody`, `ByteArrayPartBody`, `StringPartBody`, `MultipartBody`):
  - boundary generation;
  - the three headers a part synthesises when it is built;
  - the exact bytes `writeTo` emits;
  - the `multipart/form-data` content type.
- **Forms and URI handlers**:
  - `FormBody`, with its insertion-ordered map of shared value lists and its `application/x-www-form-urlencoded` writer (URLEncoder for UTF-8);
  - `AbstractUriHandler`, with its case-insensitive scheme set.

Each source file is its own module. Value types (`MimeType`, headers, entities and charsets) are datatypes with functions and lemmas. The builders and messages are classes whose methods update their fields and the lists they share. Code that loops in the source becomes a method proved against the function that specifies it:
- `MimeType.parse`, the constructor and `toString`;
- `HttpHeaders.getHeaders`;
- `HttpMessage.getHeaders`/`getHeader`;
- `MultipartBody.writeTo`;
- `FormBody.writeTo`.

Errors that the source signals with exceptions or `null` are modelled with `Result` and `Option`.

Inputs that the source takes from its environment are parameters of the model:
- the random draws of `generateBoundary`;
- the platform default charset;
- the extension-to-type lookup behind `MimeType.guess`.

In the source cells below, every path is relative to the repository root.

## Model

| member | source | states |
|---|---|---|
| Ascii.ToLower | src/main/java/com/sdklite/net/MimeType.java:51 | Locale.US lower-casing of one character: A to Z move up by 32, every other character is unchanged |
| Ascii.Lower | src/main/java/com/sdklite/net/MimeType.java:51-52 | the lower-cased string has the input's length and is lower-cased character by character |
| Ascii.LowerAppend | src/main/java/com/sdklite/net/MimeType.java:51-52 | lower-casing distributes over concatenation |
| Ascii.LexLessIrreflexive | src/main/java/com/sdklite/net/MimeType.java:201 | String.compareTo order, as used by the parameter map, never puts a string before itself |
| Ascii.LexLessAsymmetric | src/main/java/com/sdklite/net/MimeType.java:201 | String.compareTo order is asymmetric |
| Ascii.LexLessTransitive | src/main/java/com/sdklite/net/MimeType.java:201 | String.compareTo order is transitive |
| Ascii.LexLessTotal | src/main/java/com/sdklite/net/MimeType.java:201 | any two different strings are ordered one way or the other |
| Ascii.CiLessTotal | src/main/java/com/sdklite/net/http/HttpHeaders.java:17-22 | CASE_INSENSITIVE_ORDER orders any two strings that are not equal ignoring case |
| Ascii.CiLessTransitive | src/main/java/com/sdklite/net/http/HttpHeaders.java:17-22 | CASE_INSENSITIVE_ORDER is transitive |
| Ascii.CiLessExcludesEqual | src/main/java/com/sdklite/net/http/HttpHeaders.java:17-22 | a string below another in CASE_INSENSITIVE_ORDER is neither equal to it ignoring case nor above it |
| Ascii.TrimLeft | src/main/java/com/sdklite/net/http/HttpHeaders.java:79 | drops exactly the leading characters at or below U+0020; the result is a suffix that starts with a character above U+0020 |
| Ascii.TrimRight | src/main/java/com/sdklite/net/http/HttpHeaders.java:79 | drops exactly the trailing characters at or below U+0020; the result is a prefix ending in a character above U+0020 |
| Ascii.Trim | src/main/java/com/sdklite/net/http/HttpHeaders.java:79 | String.trim leaves neither a leading nor a trailing character at or below U+0020 |
| Ascii.TrimOfTrimmed | src/main/java/com/sdklite/net/http/HttpHeaders.java:79 | trim leaves an already trimmed string unchanged |
| Ascii.IndexOf | src/main/java/com/sdklite/net/http/HttpHeaders.java:74 | indexOf returns the first position of the character, or -1 exactly when it does not occur |
| Charsets.ForName | src/main/java/com/sdklite/net/http/Constants.java:21-25 | Charset.forName: a name is accepted only when it equals a supported charset's name ignoring case |
| Charsets.Utf8Char | src/main/java/com/sdklite/net/http/FormBody.java:75 | UTF-8 writes one to four bytes per character, exactly one (its code) for ASCII |
| Charsets.Encode | src/main/java/com/sdklite/net/http/StringPartBody.java:26 | String.getBytes: one byte per character for US-ASCII and ISO-8859-1, one to four for UTF-8 |
| Charsets.EncodeAppend | src/main/java/com/sdklite/net/http/StringPartBody.java:26 | encoding distributes over concatenation |
| Charsets.EncodeAscii | src/main/java/com/sdklite/net/http/MultipartBody.java:95 | every supported charset writes ASCII text as one byte per character, its code |
| Entities.Content | src/main/java/com/sdklite/net/http/ByteArrayPartBody.java:46-53 | the bytes a byte-array body streams and writes: its slice, of the slice's length |
| Entities.ContentLength | src/main/java/com/sdklite/net/http/ByteArrayPartBody.java:56-58 | getContentLength is the number of bytes the body writes (also StringPartBody.java:35-37) |
| Entities.TransferEncoding | src/main/java/com/sdklite/net/http/ByteArrayPartBody.java:61-63 | Content-Transfer-Encoding is `binary` exactly for byte-array bodies and `8bit` exactly for string bodies (StringPartBody.java:40-42) |
| Entities.PartCharset | src/main/java/com/sdklite/net/http/PartBody.java:32-34 | getCharset is the content type's charset parameter, unquoted, and ISO-8859-1 when there is none |
| Entities.ChooseContentType | src/main/java/com/sdklite/net/http/PartBody.java:17 | the given content type is kept; without one, the guess for a filename; else application/octet-stream |
| Entities.NewByteArrayPartBody | src/main/java/com/sdklite/net/http/ByteArrayPartBody.java:38-43 | the body keeps the filename, chooses the content type as PartBody does, and, for an offset and length inside the array, writes exactly data[offset..offset+length] of that length |
| Entities.WholeArrayBody | src/main/java/com/sdklite/net/http/ByteArrayPartBody.java:18-24 | the constructors without offset and type read the whole array as application/octet-stream with no filename |
| Entities.NewStringPartBody | src/main/java/com/sdklite/net/http/StringPartBody.java:23-27 | the text is encoded once with the content type's charset (US-ASCII by default); an unsupported charset name is the error; content and length are the encoded bytes |
| Entities.PlainTextBody | src/main/java/com/sdklite/net/http/StringPartBody.java:15-17 | the one-argument constructor is text/plain, no filename, text encoded as US-ASCII |
| Entities.AsciiTextBody | src/main/java/com/sdklite/net/http/StringPartBody.java:34-37 | for ASCII text the content is the text's codes and the length is the text's length, whatever the charset |
| Entities.ConstantsParse | src/main/java/com/sdklite/net/http/Constants.java:9-11 | the two constant media types are what parse makes of `application/octet-stream` and `text/plain` |
| Entities.BareRoundTrip | src/main/java/com/sdklite/net/MimeType.java:316-333 | a lower-case type/subtype with no parameters re-parses from its string to itself |
| Entities.OctetStreamRoundTrip | src/main/java/com/sdklite/net/http/Constants.java:9 | application/octet-stream re-parses from its string to itself |
| Entities.TextPlainRoundTrip | src/main/java/com/sdklite/net/http/Constants.java:11 | text/plain re-parses from its string to itself |
| Entities.ByteSink.Write | src/main/java/com/sdklite/net/http/ByteArrayPartBody.java:52 | OutputStream.write appends the bytes to what was written before |
| Entities.WriteTo | src/main/java/com/sdklite/net/http/ByteArrayPartBody.java:51-53 | writeTo appends exactly the entity's content to the sink (also StringPartBody.java:45-47) |
| Headers.Parse | src/main/java/com/sdklite/net/http/HttpHeaders.java:73-80 | parse fails exactly when the first colon is missing, first or last; otherwise the name is the trimmed text before the first colon and the value the trimmed text after it, so the name holds no colon |
| Headers.ParseLine | src/main/java/com/sdklite/net/http/HttpHeaders.java:73-80 | parse(name + ": " + value) gives back the header for a non-empty, colon-free name and trimmed name and value |
| Headers.Line | src/main/java/com/sdklite/net/http/SimpleHttpHeader.java:24-26 | the `name: value` line of toString; ParseLine states that parse reads it back |
| Headers.ParseKeepsLaterColons | src/main/java/com/sdklite/net/http/HttpHeaders.java:74-79 | only the first colon splits: `Host: example.org:8080` keeps the port colon in the value |
| Headers.ParseSplitsAtFirstColon | src/main/java/com/sdklite/net/http/HttpHeaders.java:74-79 | ` a :b:c ` parses to name `a` and value `b:c`: blanks trimmed on both sides, later colons kept |
| Headers.ParseAroundColon | src/main/java/com/sdklite/net/http/HttpHeaders.java:73-80 | for any non-empty colon-free prefix and non-empty rest, parse(prefix + ":" + rest) is the header of the trimmed prefix and the trimmed rest |
| Headers.ParseLong | src/main/java/com/sdklite/net/http/HttpHeaders.java:60 | Long.parseLong accepts only a sign or digit first and only values in the signed 64-bit range |
| Headers.DigitsValueOfDigits | src/main/java/com/sdklite/net/http/HttpHeaders.java:60 | the decimal digits of n read back as n |
| Headers.ParseDecimal | src/main/java/com/sdklite/net/http/HttpHeaders.java:60 | every 64-bit value's decimal text parses back to it |
| Headers.ParseLongRejectsBlanks | src/main/java/com/sdklite/net/http/HttpHeaders.java:60 | text with a leading or trailing blank is not a number |
| Headers.ParseSignedDigits | src/main/java/com/sdklite/net/http/HttpHeaders.java:60 | any run of ASCII digits, leading zeros included, reads as its value, with `+` unchanged and `-` negated, whenever that fits in 64 bits |
| Headers.AllNamed | src/main/java/com/sdklite/net/http/HttpMessage.java:29-39 | getHeaders(name) holds exactly the headers named name ignoring case, in stored order |
| Headers.FirstNamed | src/main/java/com/sdklite/net/http/HttpMessage.java:41-49 | getHeader(name) is null iff no header matches ignoring case, else the first match |
| Headers.FirstIsHeadOfAll | src/main/java/com/sdklite/net/http/HttpMessage.java:29-49 | getHeader is null iff getHeaders is empty, and otherwise its first element |
| Headers.AllNamedSnoc | src/main/java/com/sdklite/net/http/HttpMessage.java:29-39 | appending a header extends getHeaders(name) by it exactly when its name matches |
| Headers.FirstNamedSnoc | src/main/java/com/sdklite/net/http/HttpMessage.java:41-49 | appending a header never changes an existing first match and becomes the first match otherwise |
| Headers.LookupIgnoresCase | src/main/java/com/sdklite/net/http/HttpMessage.java:33 | names equal ignoring case find the same headers |
| Headers.ContentLength | src/main/java/com/sdklite/net/http/HttpHeaders.java:53-64 | -1 without a Content-Length header or when parseLong rejects the first one's value; otherwise exactly the 64-bit value parseLong reads from it |
| Headers.ContentLengthOfDecimal | src/main/java/com/sdklite/net/http/HttpHeaders.java:53-64 | a first Content-Length header holding n's decimal text gives n |
| Headers.ContentLengthUsesFirst | src/main/java/com/sdklite/net/http/HttpHeaders.java:54 | a later Content-Length header does not change the answer |
| Headers.ContentLengthOfDigits | src/main/java/com/sdklite/net/http/HttpHeaders.java:53-64 | a first Content-Length of `-5` gives -5, of `+7` or `007` gives 7: an optional sign and digits give their signed value |
| Headers.GroupHeaders | src/main/java/com/sdklite/net/http/HttpHeaders.java:31-44 | the grouping loop computes the grouping function |
| Headers.AddToGroups | src/main/java/com/sdklite/net/http/HttpHeaders.java:37-40 | one put of the grouping loop; AddExisting, AddNew and AddSorted state its effect |
| Headers.GroupSpec | src/main/java/com/sdklite/net/http/HttpHeaders.java:31-44 | the map getHeaders returns; GroupSpecIsGrouping states its meaning |
| Headers.ValuesSnoc | src/main/java/com/sdklite/net/http/HttpHeaders.java:39 | appending a header appends its value |
| Headers.AddSorted | src/main/java/com/sdklite/net/http/HttpHeaders.java:40 | putting a header keeps the keys strictly increasing case-insensitively |
| Headers.AddExisting | src/main/java/com/sdklite/net/http/HttpHeaders.java:37-40 | a header whose name is a key ignoring case appends its value to that key's list and changes nothing else |
| Headers.AddNew | src/main/java/com/sdklite/net/http/HttpHeaders.java:37-40 | a header with a new name inserts one new entry, with that spelling and one value, in its sorted place |
| Headers.TotalValuesStep | src/main/java/com/sdklite/net/http/HttpHeaders.java:39 | each header adds exactly one value to the grouping |
| Headers.KeyRecordsFirstSpelling | src/main/java/com/sdklite/net/http/HttpHeaders.java:37-40 | a key of the grouping is spelt as getHeader(key) finds the first such header |
| Headers.GroupSpecIsGrouping | src/main/java/com/sdklite/net/http/HttpHeaders.java:31-44 | the grouping has sorted keys, each key the first spelling seen with the values in message order, every header covered, as many values as headers |
| Headers.GroupStep | src/main/java/com/sdklite/net/http/HttpHeaders.java:34-41 | one loop step keeps the grouping invariant |
| Headers.SortedKeysDistinct | src/main/java/com/sdklite/net/http/HttpHeaders.java:17-22 | no two keys are equal ignoring case |
| Headers.GroupHeadersSpec | src/main/java/com/sdklite/net/http/HttpHeaders.java:31-44 | the grouping of the message's headers meets the invariant and has at most one entry per header |
| Headers.GroupCountBound | src/main/java/com/sdklite/net/http/HttpHeaders.java:34-41 | with non-empty value lists there are no more keys than values |
| HttpMethods.InvalidatesCache | src/main/java/com/sdklite/net/http/HttpMethod.java:84-86 | invalidatesCache; CacheInvalidatorsWithoutBody states which invalidators need no body |
| HttpMethods.RequiresRequestBody | src/main/java/com/sdklite/net/http/HttpMethod.java:91-93 | requiresRequestBody; RequiresImpliesPermits and NoBodyMethods state its relation to permitsRequestBody |
| HttpMethods.PermitsRequestBody | src/main/java/com/sdklite/net/http/HttpMethod.java:98-100 | permitsRequestBody; BodyPermitters states that exactly GET, HEAD, MOVE and UNLOCK do not permit a body |
| HttpMethods.BodyPermitters | src/main/java/com/sdklite/net/http/HttpMethod.java:98-100 | exactly GET, HEAD, MOVE and UNLOCK do not permit a request body |
| HttpMethods.CacheInvalidatorsWithoutBody | src/main/java/com/sdklite/net/http/HttpMethod.java:84-93 | DELETE and MOVE are the cache invalidators that do not require a body |
| HttpMethods.RequiresImpliesPermits | src/main/java/com/sdklite/net/http/HttpMethod.java:91-100 | every method that requires a body permits one |
| HttpMethods.NoBodyMethods | src/main/java/com/sdklite/net/http/HttpMethod.java:91-100 | GET, HEAD, MOVE and UNLOCK neither require nor permit a body |
| Messages.HeaderList.AddAll | src/main/java/com/sdklite/net/http/HttpMessage.java:72 | addAll appends the headers at the end |
| Messages.MessageBuilder.constructor | src/main/java/com/sdklite/net/http/HttpMessage.java:59-64 | a new builder has no headers and no entity |
| Messages.MessageBuilder.FromMessage | src/main/java/com/sdklite/net/http/HttpMessage.java:66-69 | a builder from a message gets a fresh copy of the header list and shares the entity |
| Messages.MessageBuilder.AddHeaders | src/main/java/com/sdklite/net/http/HttpMessage.java:71-74 | addHeaders appends at the end, duplicates allowed, earlier headers unchanged |
| Messages.MessageBuilder.AddHeader | src/main/java/com/sdklite/net/http/HttpMessage.java:76-78 | addHeader appends exactly one header with that name and value |
| Messages.MessageBuilder.SetEntity | src/main/java/com/sdklite/net/http/HttpMessage.java:80-83 | setEntity replaces the entity |
| Messages.Message.constructor | src/main/java/com/sdklite/net/http/HttpMessage.java:20-23 | the message wraps the builder's own header list, with no copy |
| Messages.Message.GetHeaders | src/main/java/com/sdklite/net/http/HttpMessage.java:29-39 | the scan returns every header named name ignoring case, in order |
| Messages.Message.GetHeader | src/main/java/com/sdklite/net/http/HttpMessage.java:41-49 | the scan returns the first header named name ignoring case, or none |
| Messages.FirstNamedAt | src/main/java/com/sdklite/net/http/HttpMessage.java:41-49 | the header at the first matching position is the one getHeader returns |
| Messages.HeadersAddedAfterBuild | src/main/java/com/sdklite/net/http/HttpMessage.java:20-23 | headers added to a builder after build are seen by the built message |
| Messages.CopiedBuilderIsIndependent | src/main/java/com/sdklite/net/http/HttpMessage.java:66-69 | headers added to a copied builder leave the original message's headers unchanged |
| Requests.IsSecureUrl | src/main/java/com/sdklite/net/http/HttpRequest.java:40-47 | isSecure on a URL; SecureUrl and InsecureWithoutScheme state when it holds |
| Requests.HttpsShape | src/main/java/com/sdklite/net/http/HttpRequest.java:43 | a string equal to `https` ignoring case has five characters and no colon |
| Requests.SecureUrl | src/main/java/com/sdklite/net/http/HttpRequest.java:40-47 | isSecure holds iff the url's first colon is at index 5 and the text before it is `https` ignoring case |
| Requests.InsecureWithoutScheme | src/main/java/com/sdklite/net/http/HttpRequest.java:41-46 | a url with no colon, or starting with one, is not secure |
| Requests.RequestBuilder.constructor | src/main/java/com/sdklite/net/http/HttpRequest.java:69-70 | a new builder has no headers, entity, url or method |
| Requests.RequestBuilder.FromRequest | src/main/java/com/sdklite/net/http/HttpRequest.java:72-74 | a builder from a request copies headers and entity and leaves url and method unset |
| Requests.RequestBuilder.SetMethod | src/main/java/com/sdklite/net/http/HttpRequest.java:83-86 | setMethod sets the method and keeps the url |
| Requests.RequestBuilder.SetUrl | src/main/java/com/sdklite/net/http/HttpRequest.java:95-98 | setUrl sets the url and keeps the method |
| Requests.RequestBuilder.Build | src/main/java/com/sdklite/net/http/HttpRequest.java:119-121 | build wraps the builder's header list and copies its url and method |
| Requests.Request.constructor | src/main/java/com/sdklite/net/http/HttpRequest.java:15-19 | the request takes the builder's headers, entity, url and method |
| Requests.Request.IsSecure | src/main/java/com/sdklite/net/http/HttpRequest.java:40-47 | isSecure of the request's URL; SecureUrl states it |
| Requests.Request.NewBuilder | src/main/java/com/sdklite/net/http/HttpRequest.java:50-52 | newBuilder carries headers and entity; url and method come back unset |
| Requests.RebuildLosesTarget | src/main/java/com/sdklite/net/http/HttpRequest.java:72-74 | a request rebuilt through newBuilder keeps headers and entity and loses url and method |
| Responses.IsSuccessful | src/main/java/com/sdklite/net/http/HttpResponse.java:45-47 | isSuccessful; SuccessfulIsClass2xx states it is the 2xx class |
| Responses.IsRedirect | src/main/java/com/sdklite/net/http/HttpResponse.java:49-61 | isRedirect; RedirectRange states its codes and NeverBoth that no code is also successful |
| Responses.SuccessfulIsClass2xx | src/main/java/com/sdklite/net/http/HttpResponse.java:45-47 | isSuccessful holds exactly for the 2xx class |
| Responses.RedirectRange | src/main/java/com/sdklite/net/http/HttpResponse.java:49-61 | isRedirect holds exactly for 300 to 308 except 304, 305 and 306 |
| Responses.NeverBoth | src/main/java/com/sdklite/net/http/HttpResponse.java:45-61 | no status is both successful and a redirect |
| Responses.ResponseBuilder.constructor | src/main/java/com/sdklite/net/http/HttpResponse.java:80-81 | a new builder has no headers or entity, no protocol or reason, and status 0 |
| Responses.ResponseBuilder.FromResponse | src/main/java/com/sdklite/net/http/HttpResponse.java:83-85 | a builder from a response copies headers and entity and resets protocol, status and reason |
| Responses.ResponseBuilder.SetProtocol | src/main/java/com/sdklite/net/http/HttpResponse.java:112-115 | setProtocol sets the protocol and keeps the other two fields |
| Responses.ResponseBuilder.SetStatusCode | src/main/java/com/sdklite/net/http/HttpResponse.java:124-127 | setStatusCode sets the status and keeps the other two fields |
| Responses.ResponseBuilder.SetReasonPhrase | src/main/java/com/sdklite/net/http/HttpResponse.java:136-139 | setReasonPhrase sets the reason and keeps the other two fields |
| Responses.ResponseBuilder.Build | src/main/java/com/sdklite/net/http/HttpResponse.java:142-144 | build wraps the builder's header list and copies protocol, status and reason |
| Responses.Response.constructor | src/main/java/com/sdklite/net/http/HttpResponse.java:26-31 | the response takes the builder's headers, entity, protocol, status and reason |
| Responses.Response.NewBuilder | src/main/java/com/sdklite/net/http/HttpResponse.java:64-66 | newBuilder carries headers and entity and resets the status line |
| Responses.RebuildResetsStatus | src/main/java/com/sdklite/net/http/HttpResponse.java:83-85 | a rebuilt response has status 0, so it is neither successful nor a redirect |
| UriHandlers.AddScheme | src/main/java/com/sdklite/net/AbstractUriHandler.java:19-20 | TreeSet.add under CASE_INSENSITIVE_ORDER; KeysOfAdd states it is a key insertion of the header grouping |
| UriHandlers.SchemeSet | src/main/java/com/sdklite/net/AbstractUriHandler.java:18-21 | the set the constructor fills; SchemeSetSorted, GivenAreContained and MemberIsFirstSpelling state its contents |
| UriHandlers.UriHandler.constructor | src/main/java/com/sdklite/net/AbstractUriHandler.java:18-22 | the constructor's addAll loop computes the scheme set of the given schemes |
| UriHandlers.UriHandler.GetSupportedSchemes | src/main/java/com/sdklite/net/AbstractUriHandler.java:25-27 | the set fixed by the constructor; SchemeSetSorted states its order |
| UriHandlers.UriHandler.IsSchemeSupported | src/main/java/com/sdklite/net/AbstractUriHandler.java:30-32 | contains under CASE_INSENSITIVE_ORDER; SchemeSupportedIff states it holds iff the scheme equals a given one ignoring case |
| UriHandlers.KeysOfAdd | src/main/java/com/sdklite/net/AbstractUriHandler.java:19-20 | adding a scheme to the case-insensitive set is adding a key to the case-insensitive map, seen through its keys |
| UriHandlers.SchemeSetIsKeys | src/main/java/com/sdklite/net/AbstractUriHandler.java:19-20 | the scheme set is the key sequence of the case-insensitive grouping |
| UriHandlers.SchemeSetSorted | src/main/java/com/sdklite/net/AbstractUriHandler.java:19 | the set is strictly increasing case-insensitively, so no two schemes differ only in case |
| UriHandlers.GivenAreContained | src/main/java/com/sdklite/net/AbstractUriHandler.java:20 | every given scheme is in the set in some spelling |
| UriHandlers.MemberIsFirstSpelling | src/main/java/com/sdklite/net/AbstractUriHandler.java:19-20 | each member of the set is a given scheme, spelt as first given |
| UriHandlers.SchemeSupportedIff | src/main/java/com/sdklite/net/AbstractUriHandler.java:30-32 | isSchemeSupported(s) holds iff s equals some given scheme ignoring case |
| UriHandlers.NoSchemesSupportsNothing | src/main/java/com/sdklite/net/AbstractUriHandler.java:18-32 | with no schemes given, no scheme is supported |
| MimeTypes.LowerToken | src/main/java/com/sdklite/net/MimeType.java:51-52 | a lower-cased token is still a token |
| MimeTypes.TokenRun | src/main/java/com/sdklite/net/MimeType.java:28 | the end of the longest TOKEN run from i: all token characters before it, none at it |
| MimeTypes.SpaceRun | src/main/java/com/sdklite/net/MimeType.java:34 | the end of the longest `\s` run from i |
| MimeTypes.CloseQuote | src/main/java/com/sdklite/net/MimeType.java:30 | the first double quote at or after i, or none |
| MimeTypes.TokenRunStops | src/main/java/com/sdklite/net/MimeType.java:28 | the longest TOKEN run is unique: any j that bounds one is its end |
| MimeTypes.SpaceRunStops | src/main/java/com/sdklite/net/MimeType.java:34 | the longest `\s` run is unique |
| MimeTypes.CloseQuoteFinds | src/main/java/com/sdklite/net/MimeType.java:30 | the first double quote found is the first one there is |
| MimeTypes.MatchTypeSubtype | src/main/java/com/sdklite/net/MimeType.java:46-52 | lookingAt of TOKEN/TOKEN: a prefix type/subtype of two tokens that cannot be extended |
| MimeTypes.MatchValue | src/main/java/com/sdklite/net/MimeType.java:34 | a value match is a non-empty TOKEN or QUOTED string |
| MimeTypes.MatchParameter | src/main/java/com/sdklite/net/MimeType.java:34 | the parameter pattern matches iff the next character is `;`, always consumes it, and a pair it finds is a token and a TOKEN or QUOTED value |
| MimeTypes.Put | src/main/java/com/sdklite/net/MimeType.java:70 | LinkedHashMap.put: a known name keeps its place and takes the new value, a new name goes last |
| MimeTypes.PutKeepsShape | src/main/java/com/sdklite/net/MimeType.java:70 | put keeps the names distinct and every pair well formed |
| MimeTypes.ScanParams | src/main/java/com/sdklite/net/MimeType.java:56-71 | the parse loop collects distinct, well-formed parameters or fails with Malformed |
| MimeTypes.NoSameKeysFrom | src/main/java/com/sdklite/net/MimeType.java:194-203 | distinct names with at most one spelling of charset are never equated by the comparator |
| MimeTypes.InsertParamSorted | src/main/java/com/sdklite/net/MimeType.java:204 | TreeMap.put of a new key keeps the map strictly sorted and adds exactly that entry |
| MimeTypes.InsertParamLast | src/main/java/com/sdklite/net/MimeType.java:204 | a key above every stored key goes last |
| MimeTypes.SortParamsSpec | src/main/java/com/sdklite/net/MimeType.java:204 | putAll gives a sorted map with the same entries |
| MimeTypes.SortParamsOfSorted | src/main/java/com/sdklite/net/MimeType.java:204 | putAll of an already sorted map changes nothing |
| MimeTypes.FindKeyUnique | src/main/java/com/sdklite/net/MimeType.java:239-257 | in a valid map the lookup finds the one key the comparator equates with the name |
| MimeTypes.CreateSpec | src/main/java/com/sdklite/net/MimeType.java:168-209 | the constructor succeeds iff type is a token, subtype null or a token and every pair well formed; a null type is IllegalArgument, any other failure Malformed; the result is valid with the same entries sorted |
| MimeTypes.Create | src/main/java/com/sdklite/net/MimeType.java:168-209 | the constructor's validation loop and putAll loop compute the constructor's result |
| MimeTypes.OfTypeAndSubtype | src/main/java/com/sdklite/net/MimeType.java:154-156 | MimeType(type, subtype) has no parameters and the same error cases |
| MimeTypes.OfType | src/main/java/com/sdklite/net/MimeType.java:142-144 | MimeType(type) has subtype `*`, so it is a wildcard subtype |
| MimeTypes.IsWildcardType | src/main/java/com/sdklite/net/MimeType.java:301-303 | isWildcardType; WildcardParses states it holds of `*/*` |
| MimeTypes.IsWildcardSubtype | src/main/java/com/sdklite/net/MimeType.java:311-313 | isWildcardSubtype, a subtype starting with `*`; OfType and WildcardParses state where it holds |
| MimeTypes.FindKey | src/main/java/com/sdklite/net/MimeType.java:239-241 | the lookup returns a key the comparator equates with the name, or none exists |
| MimeTypes.HasParameter | src/main/java/com/sdklite/net/MimeType.java:239-241 | hasParameter holds iff some stored key compares equal to the name |
| MimeTypes.GetParameter | src/main/java/com/sdklite/net/MimeType.java:250-257 | the stored value of the matching key with one pair of enclosing quotes removed, or null |
| MimeTypes.GetParameterOr | src/main/java/com/sdklite/net/MimeType.java:266-272 | the unquoted value, or the default when the parameter is absent |
| MimeTypes.GetCharsetOr | src/main/java/com/sdklite/net/MimeType.java:293-295 | the charset parameter in any spelling, or the given default |
| MimeTypes.GetCharset | src/main/java/com/sdklite/net/MimeType.java:280-282 | the charset parameter's value in any spelling of `charset`, unquoted, and US-ASCII when there is none |
| MimeTypes.ParseSpec | src/main/java/com/sdklite/net/MimeType.java:45-74 | null iff no TOKEN/TOKEN prefix; otherwise Malformed or a valid type whose type and subtype are lower case |
| MimeTypes.Parse | src/main/java/com/sdklite/net/MimeType.java:45-74 | the index loop of parse computes the parse function |
| MimeTypes.ParseNullIff | src/main/java/com/sdklite/net/MimeType.java:45-49 | parse is null exactly when the text does not start with token `/` token character |
| MimeTypes.ParseLeadingSpaceIsNull | src/main/java/com/sdklite/net/MimeType.java:46-49 | text with leading whitespace parses to null, not to an error |
| MimeTypes.Render | src/main/java/com/sdklite/net/MimeType.java:316-333 | the canonical string toString builds; RoundTrip and ParseRendered state that parse reads it back |
| MimeTypes.ToString | src/main/java/com/sdklite/net/MimeType.java:316-333 | the StringBuilder renders the canonical string |
| MimeTypes.AppendParams | src/main/java/com/sdklite/net/MimeType.java:324-330 | the parameter loop appends `; name=value` per stored pair, the charset key lower-cased |
| MimeTypeLaws.CanonParams | src/main/java/com/sdklite/net/MimeType.java:328 | the pairs as toString names them: the charset key lower-cased, others unchanged |
| MimeTypeLaws.CanonShape | src/main/java/com/sdklite/net/MimeType.java:328 | renaming the charset key keeps names distinct, one charset and every pair well formed |
| MimeTypeLaws.ScanRendered | src/main/java/com/sdklite/net/MimeType.java:56-71 | the parse loop over rendered parameters collects exactly them, in rendered order |
| MimeTypeLaws.ParseRendered | src/main/java/com/sdklite/net/MimeType.java:45-74 | parsing toString of a type/subtype gives the lower-cased type and subtype and the canonical pairs sorted |
| MimeTypeLaws.RoundTrip | src/main/java/com/sdklite/net/MimeType.java:316-333 | parse(toString(m)) == m for a valid m with lower-case type, a subtype and the charset key spelt `charset` |
| MimeTypeLaws.ParseIsStable | src/main/java/com/sdklite/net/MimeType.java:45-74 | re-parsing the string of a parsed type gives the same type with its charset key canonical |
| MimeTypeLaws.JunkAfterSubtypeIsMalformed | src/main/java/com/sdklite/net/MimeType.java:56-59 | any character other than `;` right after type/subtype (whitespace included) makes parse throw |
| MimeTypeLaws.ParseFailsAt | src/main/java/com/sdklite/net/MimeType.java:56-59 | once the loop reaches a position where no `;` segment starts, parse throws |
| MimeTypeLaws.ScanFailsAt | src/main/java/com/sdklite/net/MimeType.java:56-59 | the loop fails when it reaches a position the parameter pattern does not match |
| MimeTypeLaws.HasParameterExact | src/main/java/com/sdklite/net/MimeType.java:194-203 | for any name but charset the lookup is exact: hasParameter iff that exact key is stored |
| MimeTypeLaws.HasParameterCharset | src/main/java/com/sdklite/net/MimeType.java:197-198 | any spelling of charset finds a stored charset key |
| MimeTypeLaws.LookupCases | src/main/java/com/sdklite/net/MimeType.java:239-241 | with keys `charset` and `name`, `CHARSET` is found and `Name` is not |
| MimeTypeLaws.ParametersAreSorted | src/main/java/com/sdklite/net/MimeType.java:194-204 | `text/plain; b=2; a=1` parses with its parameters sorted |
| MimeTypeLaws.SortedRendering | src/main/java/com/sdklite/net/MimeType.java:324-330 | toString renders the pairs in stored order |
| MimeTypeLaws.BareNameIsMalformed | src/main/java/com/sdklite/net/MimeType.java:56-59 | `text/plain; bad` throws |
| MimeTypeLaws.EmptySegment | src/main/java/com/sdklite/net/MimeType.java:62-65 | a bare `;` segment is skipped |
| MimeTypeLaws.QuotedValue | src/main/java/com/sdklite/net/MimeType.java:67-69 | a quoted value is stored with its quotes |
| MimeTypeLaws.QuotedParse | src/main/java/com/sdklite/net/MimeType.java:30 | a type with a quoted value re-parses from its string to itself |
| MimeTypeLaws.QuotedValueUnwrapped | src/main/java/com/sdklite/net/MimeType.java:250-257 | getParameter of a quoted value strips the quotes |
| MimeTypeLaws.RepeatedNameKeepsLast | src/main/java/com/sdklite/net/MimeType.java:70 | a repeated name keeps its last value |
| MimeTypeLaws.WildcardParses | src/main/java/com/sdklite/net/MimeType.java:301-313 | `*/*` parses to a type that is a wildcard type and a wildcard subtype |
| Parts.NameText | src/main/java/com/sdklite/net/http/Part.java:96 | StringBuilder.append of the part name, `null` for none; DispositionLineParses states the resulting line parses back |
| Parts.ContentDisposition | src/main/java/com/sdklite/net/http/Part.java:94-106 | `form-data; name="n"` plus `; filename="f"` for a part entity with a filename; DispositionLineParses states its header line parses back |
| Parts.PartTransferEncoding | src/main/java/com/sdklite/net/http/Part.java:112-118 | Content-Transfer-Encoding is the part entity's own value, and `7bit` exactly for any other entity |
| Parts.Synthesised | src/main/java/com/sdklite/net/http/Part.java:87-92 | the three headers build appends, named Content-Disposition, Content-Type, Content-Transfer-Encoding in that order, with the entity's type string and transfer encoding |
| Parts.PartBuilder.constructor | src/main/java/com/sdklite/net/http/Part.java:48-49 | a new builder has no headers, entity or name |
| Parts.PartBuilder.FromPart | src/main/java/com/sdklite/net/http/Part.java:51-54 | a builder from a part copies its headers, three synthesised ones included, shares its entity and keeps its name |
| Parts.PartBuilder.SetName | src/main/java/com/sdklite/net/http/Part.java:63-66 | setName sets the name |
| Parts.PartBuilder.Build | src/main/java/com/sdklite/net/http/Part.java:87-92 | build appends the three synthesised headers after the existing ones and wraps that same list |
| Parts.Part.constructor | src/main/java/com/sdklite/net/http/Part.java:13-16 | the part wraps the builder's header list and keeps its name |
| Parts.Part.NewBuilder | src/main/java/com/sdklite/net/http/Part.java:31-33 | newBuilder copies headers, entity and name |
| Parts.BuildTwice | src/main/java/com/sdklite/net/http/Part.java:87-91 | building twice appends the three headers twice, and the first part sees both sets |
| Parts.RebuildRepeatsHeaders | src/main/java/com/sdklite/net/http/Part.java:51-54 | building a copy of a part adds a second set of the three headers after the first |
| Parts.RenderTrimmed | src/main/java/com/sdklite/net/MimeType.java:316-333 | the string of a valid media type has no leading or trailing blank |
| Parts.SynthesisedLinesParse | src/main/java/com/sdklite/net/http/SimpleHttpHeader.java:24-26 | each synthesised header, written as its `name: value` line, parses back to itself |
| Multipart.GenerateBoundary | src/main/java/com/sdklite/net/http/MultipartBody.java:31-41 | 30 to 40 characters, the i-th one picked from the 64-character alphabet by the i-th draw, so a token |
| Multipart.AlphabetIsTokenChars | src/main/java/com/sdklite/net/http/MultipartBody.java:29 | every character of the boundary alphabet is a token character |
| Multipart.Views | src/main/java/com/sdklite/net/http/MultipartBody.java:102-108 | what writeTo reads of each part: its header list and its entity's bytes |
| Multipart.ContentTypeOfTokenBoundary | src/main/java/com/sdklite/net/http/MultipartBody.java:75-84 | with a token boundary getContentType is multipart/form-data with that boundary and the charset name |
| Multipart.ContentTypeText | src/main/java/com/sdklite/net/http/MultipartBody.java:76-81 | the text getContentType parses; ContentTypeOfTokenBoundary and FormDataRoundTrips state what it parses to |
| Multipart.FormDataRoundTrips | src/main/java/com/sdklite/net/http/MultipartBody.java:75-84 | that content type re-parses from its string to itself |
| Multipart.HeaderBytes | src/main/java/com/sdklite/net/http/MultipartBody.java:102-105 | the header block of one part; HeaderBytesLength and HeaderBytesAscii state its length and charset independence |
| Multipart.PartBytes | src/main/java/com/sdklite/net/http/MultipartBody.java:98-109 | the bytes of one part; PartsBytesLength states their length |
| Multipart.BodyBytes | src/main/java/com/sdklite/net/http/MultipartBody.java:94-116 | the bytes writeTo emits; BodyLength and BodyBytesPlatformIndependent state their length and platform independence |
| Multipart.WritePart | src/main/java/com/sdklite/net/http/MultipartBody.java:98-109 | one part writes `--`, the boundary, CRLF, each header line and CRLF, CRLF, the entity bytes and CRLF |
| Multipart.WriteCloseDelimiter | src/main/java/com/sdklite/net/http/MultipartBody.java:112-115 | after the parts exactly `--` boundary `--` CRLF |
| Multipart.WriteHeaderLines | src/main/java/com/sdklite/net/http/MultipartBody.java:102-105 | each header's line is written with CRLF, in stored order |
| Multipart.PartList.Add | src/main/java/com/sdklite/net/http/MultipartBody.java:185 | add appends the part at the end |
| Multipart.MultipartBuilder.constructor | src/main/java/com/sdklite/net/http/MultipartBody.java:135-145 | a new builder has the platform charset, a generated token boundary and no parts |
| Multipart.MultipartBuilder.FromBody | src/main/java/com/sdklite/net/http/MultipartBody.java:147-151 | a builder from a body copies charset and boundary and gets its own copy of the parts list |
| Multipart.MultipartBuilder.SetCharset | src/main/java/com/sdklite/net/http/MultipartBody.java:160-163 | setCharset overwrites the charset and keeps the boundary |
| Multipart.MultipartBuilder.SetBoundary | src/main/java/com/sdklite/net/http/MultipartBody.java:172-175 | setBoundary overwrites the boundary and keeps the charset |
| Multipart.MultipartBuilder.AddPart | src/main/java/com/sdklite/net/http/MultipartBody.java:184-187 | addPart appends at the end |
| Multipart.MultipartBuilder.AddEntityPart | src/main/java/com/sdklite/net/http/MultipartBody.java:198-200 | addPart(name, entity) appends one new part named name with that entity and the three synthesised headers |
| Multipart.MultipartBuilder.AddBytesPart | src/main/java/com/sdklite/net/http/MultipartBody.java:211-213 | addPart(name, bytes) appends an application/octet-stream part over the whole array |
| Multipart.MultipartBuilder.AddTypedBytesPart | src/main/java/com/sdklite/net/http/MultipartBody.java:226-228 | addPart(name, bytes, type) appends a byte-array part of that type |
| Multipart.MultipartBuilder.AddTextPart | src/main/java/com/sdklite/net/http/MultipartBody.java:267-269 | addPart(name, text) appends a text/plain part holding the US-ASCII bytes of the text |
| Multipart.MultipartBuilder.AddTypedTextPart | src/main/java/com/sdklite/net/http/MultipartBody.java:282-284 | addPart(name, text, type) appends a string part, or fails with nothing appended when the charset is unsupported |
| Multipart.MultipartBuilder.Build | src/main/java/com/sdklite/net/http/MultipartBody.java:291-293 | build wraps the builder's own list and copies charset and boundary |
| Multipart.MultipartBody.constructor | src/main/java/com/sdklite/net/http/MultipartBody.java:49-53 | the body takes the builder's list with no copy |
| Multipart.MultipartBody.WriteTo | src/main/java/com/sdklite/net/http/MultipartBody.java:94-116 | writeTo writes every part in list order, then the close delimiter |
| Multipart.MultipartBody.GetContent | src/main/java/com/sdklite/net/http/MultipartBody.java:87-91 | getContent yields exactly the bytes writeTo writes |
| Multipart.MultipartBody.GetContentType | src/main/java/com/sdklite/net/http/MultipartBody.java:75-84 | getContentType parses `multipart/form-data; boundary=<b>[; charset=<name>]` |
| Multipart.MultipartBody.NewBuilder | src/main/java/com/sdklite/net/http/MultipartBody.java:123-125 | newBuilder copies charset, boundary and the parts |
| Multipart.DefaultContentType | src/main/java/com/sdklite/net/http/MultipartBody.java:135-137 | a default builder's body has content type multipart/form-data with a 30 to 40 character boundary and the platform charset |
| Multipart.PartsAddedAfterBuild | src/main/java/com/sdklite/net/http/MultipartBody.java:49-53 | a part added to the builder after build appears in the built body |
| Multipart.CopiedBuilderIsIndependent | src/main/java/com/sdklite/net/http/MultipartBody.java:147-151 | a part added through newBuilder leaves the original body's parts unchanged |
| Multipart.HeaderBytesAscii | src/main/java/com/sdklite/net/http/MultipartBody.java:103 | ASCII header lines are written the same under every platform charset |
| Multipart.PartsBytesAscii | src/main/java/com/sdklite/net/http/MultipartBody.java:97-110 | parts with ASCII header lines are written the same under every platform charset |
| Multipart.BodyBytesPlatformIndependent | src/main/java/com/sdklite/net/http/MultipartBody.java:94-116 | an ASCII boundary and ASCII headers make the body independent of the platform charset |
| Multipart.HeaderBytesLength | src/main/java/com/sdklite/net/http/MultipartBody.java:102-105 | the header block is the sum of each line's length plus 2 |
| Multipart.PartsBytesLength | src/main/java/com/sdklite/net/http/MultipartBody.java:97-110 | each part is 4 + boundary + header block + 2 + entity + 2 bytes |
| Multipart.BodyLength | src/main/java/com/sdklite/net/http/MultipartBody.java:95-115 | the body is the parts' lengths plus 6 + boundary bytes; with no parts it is the close delimiter alone |
| Forms.Escape | src/main/java/com/sdklite/net/http/FormBody.java:75 | URLEncoder for one character: kept, `+` for a space, else %XX of its UTF-8 bytes; UrlEncodeKeepsUnreserved and UrlEncodeIsSafe state its output |
| Forms.UrlEncode | src/main/java/com/sdklite/net/http/FormBody.java:75 | URLEncoder.encode(s, "UTF-8"); UrlRoundTrip states that decoding gives back the UTF-8 bytes |
| Forms.HexDigit | src/main/java/com/sdklite/net/http/FormBody.java:75 | an escape digit is 0-9 or A-F |
| Forms.Percent | src/main/java/com/sdklite/net/http/FormBody.java:75 | %XX escaping writes three characters per byte |
| Forms.UrlEncodeAppend | src/main/java/com/sdklite/net/http/FormBody.java:75 | URL encoding distributes over concatenation |
| Forms.UrlEncodeIsSafe | src/main/java/com/sdklite/net/http/FormBody.java:75-77 | encoded text is ASCII and holds no `&` and no `=`, so pairs split unambiguously |
| Forms.UrlEncodeKeepsUnreserved | src/main/java/com/sdklite/net/http/FormBody.java:75 | letters, digits and `.-*_` are written as they are |
| Forms.HexValue | src/main/java/com/sdklite/net/http/FormBody.java:75 | reading a hex digit gives a value below 16 |
| Forms.HexRoundTrip | src/main/java/com/sdklite/net/http/FormBody.java:75 | reading the digit written for d gives d |
| Forms.UrlRoundTrip | src/main/java/com/sdklite/net/http/FormBody.java:75 | decoding the encoded text gives the text's UTF-8 bytes |
| Forms.Pairs | src/main/java/com/sdklite/net/http/FormBody.java:72-78 | one `name=value` pair per value, in order |
| Forms.PairBytes | src/main/java/com/sdklite/net/http/FormBody.java:75-77 | one `name=value` pair as bytes; PairBytesAscii and WritePair state it |
| Forms.Chunks | src/main/java/com/sdklite/net/http/FormBody.java:68-70 | one chunk per name, in order |
| Forms.FormBytes | src/main/java/com/sdklite/net/http/FormBody.java:67-90 | the bytes writeTo emits; FormBytesArePairs and the EmptyField lemmas state their layout |
| Forms.JoinSnoc | src/main/java/com/sdklite/net/http/FormBody.java:79-86 | joining one more piece writes one `&` before it |
| Forms.ValueList.AddAll | src/main/java/com/sdklite/net/http/FormBody.java:132 | addAll appends the values |
| Forms.FormMap.Of | src/main/java/com/sdklite/net/http/FormBody.java:118 | putAll into a new map: the same names, in order, bound to the same lists |
| Forms.FormMap.Put | src/main/java/com/sdklite/net/http/FormBody.java:133 | put: a new name goes last, a known name keeps its place |
| Forms.FieldsOf | src/main/java/com/sdklite/net/http/FormBody.java:68-73 | the entries writeTo iterates: each name in order with its list's values |
| Forms.FormBuilder.constructor | src/main/java/com/sdklite/net/http/FormBody.java:109-115 | a new builder has an empty map |
| Forms.FormBuilder.FromBody | src/main/java/com/sdklite/net/http/FormBody.java:117-119 | a builder from a form gets a new map with the same names bound to the same value lists |
| Forms.FormBuilder.Add | src/main/java/com/sdklite/net/http/FormBody.java:130-135 | add appends the values to that name's list; a new name gets a fresh list and goes last; a known name keeps its place; other lists are unchanged |
| Forms.FormBuilder.Build | src/main/java/com/sdklite/net/http/FormBody.java:142-144 | build makes a form over the builder's own map |
| Forms.FormBody.constructor | src/main/java/com/sdklite/net/http/FormBody.java:30-32 | the form wraps the builder's map with no copy |
| Forms.FormBody.GetNames | src/main/java/com/sdklite/net/http/FormBody.java:37-39 | getNames is the names in insertion order |
| Forms.FormBody.GetValues | src/main/java/com/sdklite/net/http/FormBody.java:46-52 | getValues is a known name's list, or empty for an unknown name |
| Forms.FormBody.GetContentType | src/main/java/com/sdklite/net/http/FormBody.java:55-57 | the content type is application/x-www-form-urlencoded |
| Forms.FormBody.WriteTo | src/main/java/com/sdklite/net/http/FormBody.java:67-90 | writeTo appends the form's bytes to the sink |
| Forms.FormBody.GetContent | src/main/java/com/sdklite/net/http/FormBody.java:60-64 | getContent yields exactly the bytes writeTo writes |
| Forms.FormBody.NewBuilder | src/main/java/com/sdklite/net/http/FormBody.java:97-99 | newBuilder copies the map and shares the value lists |
| Forms.WriteFields | src/main/java/com/sdklite/net/http/FormBody.java:68-87 | the outer iterator loop writes each name's pairs, with `&` between names |
| Forms.WriteValues | src/main/java/com/sdklite/net/http/FormBody.java:72-82 | the inner loop writes each pair, with `&` between values |
| Forms.WritePair | src/main/java/com/sdklite/net/http/FormBody.java:75-77 | one pair is the encoded name, `=` and the encoded value, as UTF-8 |
| Forms.FormUrlencodedParses | src/main/java/com/sdklite/net/http/FormBody.java:56 | `application/x-www-form-urlencoded` parses to that media type |
| Forms.JoinAppend | src/main/java/com/sdklite/net/http/FormBody.java:84-86 | joining two non-empty runs of pieces puts one `&` between them |
| Forms.FormBytesArePairs | src/test/java/com/sdklite/net/FormBodyTest.java:26-49 | with every name holding a value the form is all its pairs, in order, joined by single `&` |
| Forms.EmptyFieldInTheMiddle | src/main/java/com/sdklite/net/http/FormBody.java:72-86 | a name without values between others writes `&&` |
| Forms.EmptyFieldFirst | src/main/java/com/sdklite/net/http/FormBody.java:84-86 | a first name without values makes the output start with `&` |
| Forms.EmptyFieldLast | src/main/java/com/sdklite/net/http/FormBody.java:84-86 | after at least one name, a last name without values adds only the `&` written after the previous name, so the output ends in `&` |
| Forms.PairBytesAscii | src/main/java/com/sdklite/net/http/FormBody.java:75-77 | every byte of a pair is ASCII |
| Forms.UnreservedField | src/main/java/com/sdklite/net/http/FormBody.java:72-82 | for names and values of unreserved characters the field is the UTF-8 bytes of `name=v1&name=v2...` |
| Forms.VersionForm | src/test/java/com/sdklite/net/FormBodyTest.java:52-57 | the form `version` 1.0 to 4.0 writes `version=1.0&version=2.0&version=3.0&version=4.0` |
| Forms.EmptyForm | src/main/java/com/sdklite/net/http/FormBody.java:68-89 | an empty form has no names and writes nothing |
| Forms.VersionFormContent | src/test/java/com/sdklite/net/FormBodyTest.java:52-57 | building that form through the builder and reading getContent gives those bytes |
| Forms.RepeatedAdd | src/main/java/com/sdklite/net/http/FormBody.java:130-135 | adding to a known name extends its values and keeps the name order |
| Forms.AddedAfterBuild | src/main/java/com/sdklite/net/http/FormBody.java:30-32 | values added to the builder after build appear in the form |
| Forms.DerivedBuilderSharesLists | src/main/java/com/sdklite/net/http/FormBody.java:117-119 | adding to a known name through newBuilder grows the original form's values too |
| Forms.DerivedBuilderKeepsNewNames | src/main/java/com/sdklite/net/http/FormBody.java:117-119 | a name added through newBuilder is not a name of the original form |

## Left out

- `MimeType.guess` and Android's `MimeTypeMap` are not modelled. The extension lookup is a function parameter `guess` of the entity constructors.
- `Charset` covers only US-ASCII, ISO-8859-1 and UTF-8, looked up by canonical name ignoring case. Other charsets and the aliases `Charset.forName` accepts are outside the model, and an unsupported name is the `UnsupportedCharset` error.
- `Charset.defaultCharset()` and `java.util.Random` are parameters: the platform charset and the draws `nextInt` returns.
- `FilePartBody`, `InputStreamPartBody`, `HttpBody`, `MultipartSerializer`, `DnsResolver` and `UnsupportedSchemeException` are not part of this model. Neither are the two `addPart` overloads that take a `File` (`MultipartBody.java:239-256`): they read files and streams.
- Entities are immutable snapshots of their bytes. The source keeps a reference to the caller's array, so later changes to that array are not modelled.
- `OutputStream` is a byte sink that appends. `IOException`, `flush` and `getContent`'s intermediate streams are not modelled.
- Case folding follows `Locale.US` and `equalsIgnoreCase` on ASCII letters only. Non-ASCII case pairs are treated as different characters.
- `Long.parseLong` accepts ASCII digits only; the Unicode digits Java also accepts are not modelled.
- `MalformedMimeTypeException` and `IllegalArgumentException` carry no message in the model.
- A null header name or value, a null form value, a null part name other than through `setName`, and a null content type passed to `StringPartBody(text, null)` are not modelled; the source throws or writes `null` for them. For the last one the source dereferences the null `contentType` at `StringPartBody.java:25`, and the model's `ct` parameter of `NewStringPartBody` is a `MimeType`, not an optional one.
- `Collections.unmodifiable*` wrappers are not modelled. Every view is read-only in the model, and a view shares its backing list exactly as the source does.
- `HttpHeaders.getContentLength` assigns the `HttpHeader` that `getHeader` returns to a `String`. The model reads that as the value of the first `Content-Length` header.
- `PartBody.getCharset` (`PartBody.java:33`) and the `StringPartBody` constructor (`StringPartBody.java:25`) pass a `Charset` constant (`Constants.java:21-25`) to `MimeType.getCharset(String)`, which has no `Charset` overload. The model reads the argument as that charset's canonical name: `Entities.PartCharset` defaults to `ISO-8859-1` and `NewStringPartBody` to `US-ASCII`.
- Strings are sequences of Unicode scalar values, and `Ascii.LexLess` and `Ascii.CiLess` compare code points. Java's `compareTo` and `CASE_INSENSITIVE_ORDER` compare UTF-16 code units; the two orders differ only when a character in U+E000..U+FFFF meets a supplementary character at the first difference, where Java puts the supplementary character (its high surrogate) first. For such names the model's key order in `MimeTypes.SortParamsSpec` and `Render`, `Headers.GroupSpec` and `UriHandlers.SchemeSet` differs from the source's.
- Inheritance between the builders becomes composition. Each concrete builder holds a `MessageBuilder`, and each message holds a `Message`.
- `MimeType(MimeType)`, the copy constructor, is a value copy: a datatype value is already that.
- `getCharset` returns the charset's name; `Charset` objects are not modelled beyond their names.
- `isWildcardType` and `isWildcardSubtype` are predicates on the datatype with no contract of their own. `MimeTypeLaws.WildcardParses` and `MimeTypes.OfType` state what they mean for parsed and constructed types.
- MimeTypes.HasParameter: requires `LookupDetermined`. When the name and a stored key are different spellings of `charset`, `TreeMap`'s answer depends on the tree's shape; the model covers only maps where no other key sorts between the two spellings, which always holds for the canonical `charset` key.
- MimeTypes.GetParameter: requires `LookupDetermined`, for the same reason as `HasParameter`.
- MimeTypes.GetParameterOr: requires `LookupDetermined`, for the same reason as `HasParameter`.
- MimeTypes.GetCharsetOr: requires `LookupDetermined` for the name `charset`.
- MimeTypes.GetCharset: requires `LookupDetermined` for the name `charset`.
- MimeTypes.CreateSpec: requires at most one spelling of `charset` among the parameter names. For a map holding two spellings, which of them `TreeMap.putAll` keeps depends on the tree's shape.
- MimeTypes.Create: requires at most one spelling of `charset` among the parameter names, as `CreateSpec` does.
- MimeTypes.ParseSpec: requires `ParseDetermined`, so a parsed text names `charset` in at most one spelling. Texts with two spellings reach the constructor case above.
- MimeTypes.Parse: requires `ParseDetermined`, as `ParseSpec` does.
- MimeTypes.ParseNullIff: requires `ParseDetermined`, as `ParseSpec` does.
- Entities.NewByteArrayPartBody: requires a non-negative offset and length with `offset + length` inside the array. The public constructor at `ByteArrayPartBody.java:38-43` accepts any ints without checking them; for a range outside the array the source still reports `length` from `getContentLength`, its `getContent` stream stops at the end of the array, and its `writeTo` throws `IndexOutOfBoundsException`. Every call inside the library passes `(data, 0, data.length)`, which the requires admits.
- Entities.PartCharset: requires `CharsetReadable`, a valid content type on which the `charset` lookup is determined.
- Entities.NewStringPartBody: requires `CharsetReadable`, as `PartCharset` does.
- Multipart.MultipartBuilder.AddTypedTextPart: requires `CharsetReadable`, as `NewStringPartBody` does.
- Multipart.MultipartBody.GetContentType: requires `ParseDetermined` of its text. The boundary is not checked, and a charset name with a second `charset` spelling is left out.
- Multipart.MultipartBody.WriteTo: requires every part to carry a part entity. The source dereferences null or fails its cast otherwise.
- Multipart.MultipartBody.GetContent: requires every part to carry a part entity, as `WriteTo` does.
- Parts.PartBuilder.Build: requires an entity; the source dereferences null without one.
- Requests.Request.IsSecure: requires a URL; the source dereferences null on a missing one.
- Forms.FormBuilder.Add: requires that the builder's map binds different names to different list objects. This always holds for maps built through `add`; two names sharing one `ArrayList` is not modelled.
- Forms.FormBuilder.FromBody: requires the same distinct-lists invariant, as `Add` does.
- Forms.FormBody.NewBuilder: requires the same distinct-lists invariant, as `Add` does.
- Forms.FormBody.GetValues: returns the list's contents. The source returns the live list, whose later changes through a derived builder `DerivedBuilderSharesLists` states instead.
- MimeTypes.GetCharset: returns the charset name; `Charset.forName` is not applied, so an unsupported or illegal name such as `foo` is returned instead of raising the exception the source raises.
- MimeTypes.GetCharsetOr: returns the charset name without `Charset.forName`, so the unsupported-name exception is not raised there.
- Entities.PartCharset: returns the charset name without `Charset.forName`, so the unsupported-name exception is not raised there; `NewStringPartBody` does apply `ForName` and returns the error.
- `URLEncoder.encode` is modelled for UTF-8 only, the one encoding the source passes.
