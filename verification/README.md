# Weather station CLI — a Dafny model

The program is an interactive terminal tool. It asks for a city and a
country code, requests the current weather for them from the
OpenWeatherMap "current weather" endpoint, and prints a report. The report
carries an icon chosen by temperature and a colour chosen by the condition
description. Then it asks whether to look up another city. This project
models the pure logic inside that loop and proves its properties:

- `icons.dfy` — the temperature icon: five half-open buckets, lower end inclusive.
- `styles.dfy` — the colour: an exact, case-sensitive lookup of the
  description in a closed table of fifteen phrases, with Normal for anything else.
- `request.dfy` — the request URL: city, country code and API key spliced
  into a fixed template without escaping. A parser inverts it, and the
  round trip is proved in both directions.
- `report.dfy` — the decoded response and the fields a report shows.
  Only the first condition is read.
- `session.dfy` — the loop: one request per round, the continuation test
  (trim, lower-case, compare with "yes"), the farewell, and the aborts.
- `text.dfy` — trimming, lower-casing and character search over ASCII.
- `results.dfy` — `Option` and `Result`.

Console input and the network are inputs to the model. A `Session.Round`
holds the two lines the user typed, the reply the request received (a
decoded response or a `FetchError`), and the answer line. `Session.Run`
maps a sequence of rounds and the optional API key to the sequence of
events the program produces.

Two behaviours of the code are kept as written:

- The code reads `weather[0]` unchecked (src/main.rs:57). An empty list
  therefore panics and ends the program. `Report.Render` reports
  `EmptyConditions`, and the loop turns that into `Aborted(NoCondition)`
  and stops, with no farewell.
- The API key is looked up in every round, after the city and country
  lines are read (src/main.rs:134), not once at start-up. A missing key
  aborts the first round before its request.

## Model

| member | source | states |
|---|---|---|
| `Icons.TempIcon` | src/main.rs:91-107 | The icon picked for a temperature lies in that icon's half-open interval [lower, upper) |
| `Icons.BucketsPartition` | src/main.rs:91-107 | Every temperature lies in exactly one bucket, the one TempIcon picks |
| `Icons.BucketsAdjacent` | src/main.rs:95-105 | Each bucket's exclusive upper end is the next bucket's inclusive lower end, so no temperature falls between buckets |
| `Icons.Boundaries` | src/main.rs:92-105 | -0.1 gives the cold icon, 0 the cool one, 10 the mild one, 20 the warm one and 30 the hot one |
| `Icons.TempIconMonotone` | src/main.rs:91-107 | A higher temperature never gets a colder icon (Cold < Cool < Mild < Warm < Hot) |
| `Icons.GlyphInjective` | src/main.rs:92-105 | The five icons print five distinct glyphs |
| `Styles.StyleOf` | src/main.rs:79-85 | A description gets a non-Normal style exactly when it is one of the fifteen phrases, and then the style of that phrase's category |
| `Styles.StyleOfCategory` | src/main.rs:80-83 | Each highlighted style is given to exactly the phrases of its category: "clear sky"; the three cloud phrases; the seven haze phrases; the four precipitation phrases |
| `Styles.CategoriesDisjoint` | src/main.rs:80-83 | No phrase belongs to two categories |
| `Styles.CapitalisedIsNormal` | src/main.rs:79-84 | Matching is case-sensitive: a known phrase with an upper-case initial gets Normal |
| `Styles.ClearSkyExamples` | src/main.rs:79-84 | "clear sky" is bright yellow, while "Clear sky" and "clear sky " are Normal |
| `Request.RequestUrl` | src/main.rs:39-44 | The URL starts with the fixed endpoint, has the city verbatim right after it and then a ',', then the country code verbatim, then "&appid=" and the key verbatim, and ends with "&units=metric". The layout is fixed for every input, including a country code that contains '&' |
| `Request.ParseRequestUrl` | src/main.rs:39-44 | For a city without ',' and a country code without '&', the URL parses back to the same city, country code and key |
| `Request.RequestUrlOfParse` | src/main.rs:39-44 | Any URL that parses is exactly the URL of the query it parses to |
| `Request.UnescapedCommaIsAmbiguous` | src/main.rs:39-44 | Nothing is escaped, so two different queries ("a,b","c") and ("a","b,c") produce the same URL |
| `Report.Render` | src/main.rs:55-85 | Rendering fails exactly when there is no condition. Otherwise it shows the first description, the place name, and temperature, pressure, humidity and wind unchanged, with the icon bucket of the temperature, a highlighted style exactly for vocabulary phrases, and for those the style of the phrase's category |
| `Report.RenderReadsFirstConditionOnly` | src/main.rs:57 | Conditions after the first do not affect what is shown |
| `Report.LondonExample` | src/main.rs:57-85 | A 15-degree "few clouds" London report shows the mild icon in bright blue |
| `Text.Trim` | src/main.rs:124-152 | The `trim` applied to the city (line 124), the country code (line 132) and the answer (line 152): the trimmed string is no longer than the input and neither starts nor ends with whitespace |
| `Text.TrimPadded` | src/main.rs:152 | Trimming whitespace-padded text gives back exactly the text inside the padding |
| `Text.Lower` | src/main.rs:152 | Lower-casing keeps the length and lower-cases each character in place |
| `Text.LowerIdempotent` | src/main.rs:152 | Lower-cased text has no upper-case letter, and lower-casing it again changes nothing |
| `Session.ContinuesIff` | src/main.rs:152-157 | The loop goes on exactly when the answer is "yes", in any mix of cases, with only whitespace around it |
| `Session.AcceptedAnswers` | src/main.rs:152-154 | " YES\n" and "Yes" go on |
| `Session.DeclinedAnswers` | src/main.rs:152-157 | "y" and "no" stop the loop |
| `Session.Outcome` | src/main.rs:138-145 | A failed request reports exactly its own error. A response with no condition aborts with the no-condition reason, never the missing-key one. Any other response is shown, and what is shown is Render of that response |
| `Session.Shows` | src/main.rs:138-145 | The reference transcript of rounds that all run: event 2i is round i's request and event 2i+1 is its outcome |
| `Session.LoopShape` | src/main.rs:117-158 | The loop is the reference transcript of its steps up to and including the first that halts, then the farewell exactly when that step declines rather than aborts |
| `Session.RunShape` | src/main.rs:117-158 | With a key, event 2i is round i's request for its trimmed city and country code and event 2i+1 is that round's outcome, for every round up to and including the first that stops. The farewell follows exactly when that round declines, and there are no other events |
| `Session.Loop` | src/main.rs:117-158 | An abort or the farewell can only be the last event of the loop |
| `Session.Run` | src/main.rs:117-158 | A session's only abort or farewell is its last event, and a session with input has at least one event |
| `Session.LoopRequests` | src/main.rs:117-158 | The loop sends one query per step, up to and including the first step that aborts or declines, in step order |
| `Session.LoopFarewell` | src/main.rs:152-157 | The loop says farewell exactly when some step declines and no earlier step aborted or declined |
| `Session.RequestsOfRun` | src/main.rs:121-145 | With a key, round i sends the trimmed city and country code of line i, for every round up to and including the first that stops the session, and no more rounds |
| `Session.FarewellIff` | src/main.rs:152-157 | The farewell is printed exactly when a key is present and some round declines before any round aborts. It is always the last event, so it is printed at most once |
| `Session.NoKeyNoRequest` | src/main.rs:134-138 | Without an API key no request is sent |
| `Session.MissingKeyAbortsFirst` | src/main.rs:134 | Without an API key the first round aborts and nothing else happens |

## Left out

- The HTTP request and JSON decoding (src/main.rs:46-47) are foreign
  library calls. Each round's reply is an input: a decoded
  `WeatherResponse` or a `FetchError`. The model does not distinguish
  transport errors from decoding errors beyond naming them.
- The request itself is recorded as the `Request.Query` it is built from.
  The URL sent is `Request.RequestUrl` of that query's three fields.
- Loading the `.env` file and reading the environment variable
  (src/main.rs:113, 134) are process I/O. The key is a parameter that may
  be absent. The line that prints the key (src/main.rs:135) is left out.
- Reading from stdin (src/main.rs:123, 131, 151) is replaced by the lines
  held in each round. A failed read, which panics in the code, is not
  modelled. The transcript ends when the supplied rounds end. End of input
  behaves like empty lines, and a caller can supply those.
- All printed text (welcome banner, prompts, error line, report text) and
  terminal colour escape codes are left out. A style is an enum value.
- The `{:.1}` formatting of temperature, pressure, humidity and wind
  (src/main.rs:63-76) is floating-point rendering. The numbers are carried
  as `real`s instead.
- IEEE-754 `f64` is modelled as `real`. A NaN temperature, which fails every
  comparison and gets the hot icon in the code, is not representable.
- Whitespace is ASCII whitespace (U+0009 to U+000D and space). Lower-casing
  covers ASCII letters only. Rust's trim also removes other Unicode
  whitespace, which the model keeps.
- A Rust panic (empty condition list, missing key) is an `Aborted` event
  that ends the transcript. The process exit itself is not modelled.
- Styles.CategoriesDisjoint: does not state that the vocabulary holds
  fifteen distinct phrases as a set cardinality. The phrases are listed
  one by one in the four categories, and the disjointness of those is proved.
