# Quartz solar forecast: dispatch, forecast window and Enphase client, in Dafny

This project models two parts of Open Climate Fix's Quartz Solar Forecast:

- **`quartz_solar_forecast/forecast.py`** (module `Forecast`).
  - `run_forecast` chooses between the OCF model and the Tryolabs model by name. Any other name raises `ValueError`.
  - `predict_ocf` starts from "now" rounded to the nearest quarter hour, from a parsed ISO string, or from the instant it is given.
  - `predict_tryolabs` floors its instant to the quarter hour. It keeps the predictor's rows dated in the 48 hours from that boundary, in their order, and re-keys them by date. A `None` from the predictor passes through.
  - The post-processing mutates a frame in place (`set_index(..., inplace=True)`). It is a `Frame` class whose methods change its index. `reset_index(drop=True)` returns a new frame that `predictions` is rebound to; the model resets the labels of the frame `Select` just created, which nothing else refers to, so no behaviour differs. `PostProcess` is proved equal to the pure window-then-re-key function.
- **`quartz_solar_forecast/inverters/enphase.py`** (module `Enphase`): the OAuth 2.0 Authorization Code grant (RFC 6749, sections 4.1.1 and 4.1.3) as this client runs it.
  - The authorization URL is built with `urlencode`.
  - The code is cut out of the pasted redirect URL with `split("?code=")[1]`.
  - The `Authorization: Basic` header (section 2 of RFC 7617) is the Base64 of the UTF-8 of `client_id:client_secret`.
  - The token request target is a fixed string.
  - The live-data request carries a bearer token and the API key.
  - `access_token` and `current_power.power` are read from the parsed JSON. A missing member raises `KeyError`, and a non-object raises `TypeError`.

The library behaviour these rely on is modelled for every string a Dafny `string` can hold (lone surrogates are under "## Left out"), each with a round trip or a characterisation:

- `Text`: `str.find`, `str.split`, `str.partition`, `str.join`.
- `Utf8`: UTF-8 as in RFC 3629.
- `Base64`: Base64 as in section 4 of RFC 4648.
- `FormEncoding`: Python's `quote_plus` and `urlencode`. They have the shape of the application/x-www-form-urlencoded serializer of section 5.2 of the WHATWG URL Standard, but differ from it on `*` and `~`: Python writes `*` as `%2A` and keeps `~`, while the WHATWG serializer keeps `*` and writes `~` as `%7E`. The model follows Python.
- `Json`: Python's subscript on a parsed JSON value.

Instants are whole seconds since the epoch, so 15 minutes is 900 and 48 hours is 172800. Power values are carried through as an opaque type `V`. The clock, the date parsers and formatter, the weather and PV loaders, and both forecasting models are fields of an `Env` value. The HTTPS exchanges are a `server` function from a request to the parsed JSON body. Each Enphase run returns the requests it sent, in order, with its outcome.

Where the docstrings and the code disagree, the model follows the code:

- The docstrings say a missing `ts` defaults to now "rounded down to 15 minutes". `predict_ocf` rounds to the nearest quarter hour (`forecast.py:23`), with ties going to the even multiple, as pandas does. `predict_tryolabs` floors (`forecast.py:57`).
- The model raises what the code raises: `ValueError` for an unknown model, `IndexError` for a URL without `?code=`, `KeyError`/`TypeError` for a missing JSON member.
- `forecast_v1`'s output is returned as it is; the code does not cut it to 48 hours.

## Model

| member | source | states |
|---|---|---|
| Forecast.Floor15 | quartz_solar_forecast/forecast.py:57-60 | the Tryolabs start is a quarter-hour boundary at or before the instant and less than 900 s before it |
| Forecast.FloorUnique | quartz_solar_forecast/forecast.py:57-60 | any boundary within the 900 s up to the instant is the floor, so the floor is determined by its contract |
| Forecast.FloorGreatest | quartz_solar_forecast/forecast.py:57-60 | every boundary at or before the instant is at or before its floor |
| Forecast.FloorIdempotent | quartz_solar_forecast/forecast.py:57-60 | flooring a floored instant changes nothing |
| Forecast.Round15 | quartz_solar_forecast/forecast.py:22-23 | the default OCF instant is a quarter-hour boundary within 450 s of now |
| Forecast.RoundNearest | quartz_solar_forecast/forecast.py:23 | no quarter-hour boundary is nearer to now than the rounded instant |
| Forecast.RoundTieEven | quartz_solar_forecast/forecast.py:23 | halfway between two boundaries, the rounding picks an even number of quarter hours |
| Forecast.RoundAligned | quartz_solar_forecast/forecast.py:23 | an instant already on a boundary rounds to itself |
| Forecast.WindowEnd | quartz_solar_forecast/forecast.py:62 | the window is exactly 172800 s (48 h) long |
| Forecast.Window | quartz_solar_forecast/forecast.py:76-78 | every kept row is an input row with start <= date < end; every input row with such a date is kept; no more rows than the input |
| Forecast.WindowAppend | quartz_solar_forecast/forecast.py:76-78 | filtering distributes over concatenation: each row is kept on its own date and keeps its relative order |
| Forecast.WindowSubsequence | quartz_solar_forecast/forecast.py:76-78 | the result is a subsequence of the input: no row is added, altered or reordered |
| Forecast.WindowAllInside | quartz_solar_forecast/forecast.py:76-78 | rows all dated inside the window come through unchanged |
| Forecast.WindowIdempotent | quartz_solar_forecast/forecast.py:76-78 | filtering again with the same bounds changes nothing |
| Forecast.WindowNested | quartz_solar_forecast/forecast.py:76-78 | two successive windows equal the window on the intersection of the bounds |
| Forecast.WindowDates | quartz_solar_forecast/forecast.py:76-80 | a date is a key of the windowed rows iff it lies in the window and some input row carries it |
| Forecast.ReKey | quartz_solar_forecast/forecast.py:79-80 | the output index at each position is the date of that row, and the values are the rest of the row |
| Forecast.ReKeyRoundTrip | quartz_solar_forecast/forecast.py:79-80 | re-keying by date and resetting the index are inverse to each other |
| Forecast.Frame.constructor | quartz_solar_forecast/forecast.py:65-72 | the predictor's frame holds its rows with the default index 0, 1, 2, ... and the date as a column |
| Forecast.Frame.AsIndexed | quartz_solar_forecast/forecast.py:80 | once the labels are the dates of the rows, the frame reads as the rows re-keyed by date, and resetting its index gives the rows back |
| Forecast.Frame.Select | quartz_solar_forecast/forecast.py:76-78 | the boolean selection gives a new frame whose rows are the window of the old rows, each keeping its label |
| Forecast.Frame.ResetIndex | quartz_solar_forecast/forecast.py:79 | `reset_index(drop=True)` renumbers the labels 0, 1, 2, ... and changes no row |
| Forecast.Frame.SetIndexDate | quartz_solar_forecast/forecast.py:80 | `set_index("date", inplace=True)` makes the dates the index of the same frame and changes no row |
| Forecast.PostProcess | quartz_solar_forecast/forecast.py:75-82 | the in-place post-processing yields exactly the window of the predictor's rows, re-keyed by date |
| Forecast.OcfStart | quartz_solar_forecast/forecast.py:22-26 | an absent ts becomes a boundary within 450 s of now; a string goes through `fromisoformat` and its failure; a given instant is used unchanged |
| Forecast.TryolabsInstant | quartz_solar_forecast/forecast.py:55-60 | no ts means the clock, an instant is used as given, a string goes through `pd.Timestamp`; only a string that does not parse fails |
| Forecast.PredictOcf | quartz_solar_forecast/forecast.py:10-35 | fails exactly when the timestamp cannot be read; otherwise it is the OCF model run on the weather and PV data loaded for that instant and source |
| Forecast.PredictTryolabs | quartz_solar_forecast/forecast.py:38-82 | fails exactly when the given timestamp string cannot be parsed |
| Forecast.WindowKeyed | quartz_solar_forecast/forecast.py:76-80 | the windowed rows re-keyed by date read back as the window, a subsequence of the input, keyed by exactly the dates inside the window that some row carries |
| Forecast.TryolabsContract | quartz_solar_forecast/forecast.py:55-82 | the predictor is asked for the day of the instant; `None` passes through; otherwise the result is the predictor's rows in [floor, floor + 48 h), in order, keyed by exactly their dates |
| Forecast.UnsupportedMessage | quartz_solar_forecast/forecast.py:109 | the error message contains the rejected name, `'tryolabs'` and `'ocf'` |
| Forecast.RunForecast | quartz_solar_forecast/forecast.py:85-109 | "ocf" gives the OCF forecast with no model object, "tryolabs" the Tryolabs forecast, any other name a `ValueError` with the fixed message |
| Forecast.DefaultIsOcf | quartz_solar_forecast/forecast.py:87-104 | the default model is "ocf" with source "icon", and its result is the OCF forecast |
| Forecast.TryolabsIgnoresNwpSource | quartz_solar_forecast/forecast.py:106-107 | the Tryolabs result does not depend on the weather source |
| Forecast.UnsupportedModel | quartz_solar_forecast/forecast.py:109 | any other model name fails with `ValueError` whose message names it and both supported models |
| Forecast.OcfDefaultStart | quartz_solar_forecast/forecast.py:22-33 | without ts the OCF run equals a run at the nearest boundary to now; a given instant reaches the loaders and the model without flooring |
| Enphase.AuthUrl | quartz_solar_forecast/inverters/enphase.py:21-30 | the URL is the authorize endpoint, `?`, and a query that reads back as exactly the three parameters, in the source's order |
| Enphase.AuthParams | quartz_solar_forecast/inverters/enphase.py:24-28 | three distinct keys: `response_type` is `code`, `client_id` the client id, `redirect_uri` the fixed redirect URI |
| Enphase.AuthUrlLayout | quartz_solar_forecast/inverters/enphase.py:24-29 | the URL spelled out: `response_type=code&client_id=` + the encoded id + `&redirect_uri=` + the percent-encoded redirect URI |
| Enphase.QuoteRedirectUri | quartz_solar_forecast/inverters/enphase.py:21-29 | `quote_plus` of the redirect URI writes `:` as `%3A` and `/` as `%2F` and leaves the rest as it is |
| Enphase.EncodedRedirectUriOpaque | quartz_solar_forecast/inverters/enphase.py:29 | the encoded redirect URI contains no `:` and no `/` |
| Enphase.ExtractCode | quartz_solar_forecast/inverters/enphase.py:48 | `IndexError` iff the URL lacks `?code=`; otherwise the code is what follows the first marker, up to the next marker or the end |
| Enphase.ExtractCodeRoundTrip | quartz_solar_forecast/inverters/enphase.py:48 | a code written after the marker is extracted unchanged when neither it nor the text before it holds the marker |
| Enphase.RedirectYieldsCode | quartz_solar_forecast/inverters/enphase.py:46-48 | the redirect URI followed by `?code=` and a code yields that code |
| Enphase.AmpersandCodeRejected | quartz_solar_forecast/inverters/enphase.py:48 | a URL without `?` (for example one carrying `&code=`) raises `IndexError` |
| Enphase.Base64Text | quartz_solar_forecast/inverters/enphase.py:72-75 | the Base64 text always decodes as UTF-8, its encoding is the Base64 bytes, and it has 4 * ceil(n / 3) characters |
| Enphase.BasicCredential | quartz_solar_forecast/inverters/enphase.py:66-81 | the header starts with `Basic ` and a server reading it back splits `client_id:client_secret` at its first colon |
| Enphase.BasicCredentialRoundTrip | quartz_solar_forecast/inverters/enphase.py:66-82 | a server that reads the Basic header back recovers the client id and secret whenever the id has no colon |
| Enphase.BasicCredentialColonInId | quartz_solar_forecast/inverters/enphase.py:66 | a colon in the client id moves the rest of the id into the secret the server reads |
| Enphase.TokenTarget | quartz_solar_forecast/inverters/enphase.py:83-88 | the target is the fixed path and query followed by the code exactly as pasted |
| Enphase.TokenRequest | quartz_solar_forecast/inverters/enphase.py:78-88 | a POST to the Enphase host with an empty body, the fixed target followed by the code, and one header, `Authorization` with the Basic credentials |
| Enphase.TokenQueryParams | quartz_solar_forecast/inverters/enphase.py:85 | the query reads back as grant_type, redirect_uri and code, in order, when the code holds no `&`, `+` or `%` |
| Enphase.RedirectUriPlain | quartz_solar_forecast/inverters/enphase.py:21-23 | the redirect URI holds no `&`, `+`, `%` or `?` |
| Enphase.AccessToken | quartz_solar_forecast/inverters/enphase.py:97-98 | succeeds iff the response is an object with `access_token`, returning that member; otherwise `KeyError("access_token")` for an object |
| Enphase.TokenExchange | quartz_solar_forecast/inverters/enphase.py:52-102 | `get_enphase_access_token` on a redirect URL with a code sends one POST to the token target with that code, whose credentials read back as the client id and secret, and returns the `access_token` member of the answer |
| Enphase.LiveDataTarget | quartz_solar_forecast/inverters/enphase.py:123 | the path is `/api/v4/systems/`, then the system id, then `/live_data` |
| Enphase.LiveDataRequest | quartz_solar_forecast/inverters/enphase.py:118-123 | a GET to the Enphase host on the live-data path, with `Authorization: Bearer <token>` and `key: <api key>` |
| Enphase.LivePower | quartz_solar_forecast/inverters/enphase.py:136 | succeeds iff `current_power` is an object member holding `power`, returning it; a missing `current_power` is `KeyError` |
| Enphase.LiveReading | quartz_solar_forecast/inverters/enphase.py:105-138 | once a token came back, `get_enphase_data` sends one more request, a GET of the system's live-data path with the token and API key, and returns `current_power.power` of its answer |
| Enphase.NoCodeNoRequest | quartz_solar_forecast/inverters/enphase.py:48-63 | without `?code=` in the pasted URL nothing is sent and the run raises `IndexError` |
| Enphase.DataFlowOrder | quartz_solar_forecast/inverters/enphase.py:62-138 | the token request comes first and carries the pasted code; the live-data request is sent iff a token came back, it carries that token, and the result is `current_power.power` of its answer |
| Json.Member | quartz_solar_forecast/inverters/enphase.py:98 | subscript succeeds iff the value is an object with the key; otherwise `KeyError` for an object, `TypeError` for anything else |
| Text.Split | quartz_solar_forecast/inverters/enphase.py:48 | the pieces joined by the separator give the string back; no piece holds the separator; one piece iff the separator is absent; otherwise the first piece ends at the leftmost occurrence |
| Text.SplitJoin | quartz_solar_forecast/inverters/enphase.py:48 | splitting pieces joined by a border-free separator that none of them holds gives the pieces back |
| Utf8.EncodeChar | quartz_solar_forecast/inverters/enphase.py:69 | one to four bytes, one iff the character is ASCII (and then its code), the rest continuation bytes |
| Utf8.DecodeEncode | quartz_solar_forecast/inverters/enphase.py:69 | strict UTF-8 decoding of the encoding gives the string back |
| Utf8.DecodeAscii | quartz_solar_forecast/inverters/enphase.py:75 | ASCII bytes always decode, one character per byte |
| Base64.Encode | quartz_solar_forecast/inverters/enphase.py:72 | 4 * ceil(n / 3) characters, each in the alphabet of RFC 4648 or `=`, all ASCII |
| Base64.DecodeEncode | quartz_solar_forecast/inverters/enphase.py:72 | strict decoding of the encoding gives the bytes back |
| Base64.EncodeInjective | quartz_solar_forecast/inverters/enphase.py:72 | distinct byte strings have distinct encodings |
| FormEncoding.QuoteByte | quartz_solar_forecast/inverters/enphase.py:29 | a letter, digit or `_.-~` is written as itself, a space as `+`, any other byte as `%` and two upper-case hexadecimal digits of its value |
| FormEncoding.QuotePlus | quartz_solar_forecast/inverters/enphase.py:29 | the encoded text uses only unreserved characters, `+` and `%` |
| FormEncoding.QuotePlusAscii | quartz_solar_forecast/inverters/enphase.py:29 | an ASCII character is written as its byte is: itself when unreserved, `+` for a space, `%XX` otherwise |
| FormEncoding.QuotePlusSpace | quartz_solar_forecast/inverters/enphase.py:29 | every space becomes `+`, and the text on either side is encoded on its own |
| FormEncoding.QuotePlusLiteral | quartz_solar_forecast/inverters/enphase.py:29 | text made of letters, digits and `_.-~` is written unchanged |
| FormEncoding.QuotePlusAppend | quartz_solar_forecast/inverters/enphase.py:29 | encoding distributes over concatenation |
| FormEncoding.UnquoteQuotePlus | quartz_solar_forecast/inverters/enphase.py:29 | unquoting the encoded text gives the text back |
| FormEncoding.Urlencode | quartz_solar_forecast/inverters/enphase.py:29 | the query is empty iff there are no pairs, and it holds only form-encoded characters, `=` and `&` |
| FormEncoding.UrlencodeRoundTrip | quartz_solar_forecast/inverters/enphase.py:29 | the reference parser reads back exactly the pairs, in order, that `urlencode` wrote |
| FormEncoding.UrlencodeThree | quartz_solar_forecast/inverters/enphase.py:24-29 | three pairs are serialized as `k=v&k=v&k=v` with each key and value encoded |
| FormEncoding.ParseThreePlain | quartz_solar_forecast/inverters/enphase.py:85 | three pairs written without escapes read back as themselves when keys hold no `=` and nothing holds `&`, `+` or `%` |

## Left out

- Network I/O. `HTTPSConnection`, `request`, `getresponse` and `read` are left out. A run records the requests it builds, and a `server` function gives the parsed JSON answer to each. Transport errors and HTTP status codes are not modelled.
- UTF-8 decoding of response bodies and `json.loads`. A response is an already parsed `Json` value, and malformed JSON is not modelled.
- `print` and `input`. The pasted redirect URL is a parameter, and the messages printed are not modelled.
- `os.getenv`. (`load_dotenv` is imported at `enphase.py:7` but never called.) The client id, secret and API key are strings in a `Config`. An unset variable, which Python would write as `None`, is not modelled.
- Enphase.Interpolate: how Python's `str` renders a non-string token in the bearer header is a parameter (`render`).
- The wall clock. `now` is a field of `Env`. `predict_tryolabs` reads the clock twice (`forecast.py:56-57`); the model reads it once, so a run that crosses midnight between the two reads is not modelled.
- Forecast.PredictTryolabs: its own contract gives only the failure case. The full promise is stated by Forecast.TryolabsContract and Forecast.PostProcess.
- Nanosecond timestamps and time zones. Instants are whole seconds, so a sub-second instant, and how pandas rounds it, is not modelled.
- `datetime.fromisoformat`, `pd.Timestamp(str)` and `strftime("%Y-%m-%d")`. These are functions in `Env`, and the two parsers fail with an exception value.
- `get_nwp`, `make_pv_data`, `forecast_v1` and `predict_power_output`. Their sources are not part of this model. They are functions in `Env`, and exceptions they might raise are not modelled.
- `TryolabsSolarPowerPredictor()` and `load_model()` (`forecast.py:49-52`). Building the predictor object and downloading and unpacking the model are not modelled; `predict_power_output` in `Env` stands for the loaded predictor, and a failed download is not modelled.
- Lone surrogates. A Python `str` can hold them, for example an environment value that is not valid UTF-8 read by `os.getenv`. `credentials.encode("utf-8")` (`enphase.py:69`) and `quote_plus` (`enphase.py:29`) then raise `UnicodeEncodeError`. A Dafny `char` is a Unicode scalar value and cannot hold a surrogate, so that error is not modelled.
- The live-data GET passes no body (`enphase.py:123`); the model records an empty body, as for the token POST.
- Floating-point values. Site fields and JSON numbers are `real`; power values are an opaque type and only carried through.
- The pandas frame is reduced to its index, its `date` column and the rest of each row. Column types and duplicate-date behaviour are not modelled.
- The test file is not modelled: its tests need live data and model downloads, and they only print results.
