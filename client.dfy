/** The client of receipt_recognizer/client.py: how the constructor settles
    on its URL, token and local mode, the dispatch of `recognize` between
    local PDF processing and the recognition API, the local mapping onto
    the base fields, the required-field check and the handling of the API's
    reply. The network is a pair of given functions from request to reply. */
module Client {
  import opened Wrappers
  import opened Values
  import opened Exceptions
  import opened Constants
  import opened Version
  import opened Core
  import opened PdfProcessor

  const EnvApiUrl: string := "RECEIPT_RECOGNIZER_API_URL"
  const EnvClientToken: string := "RECEIPT_RECOGNIZER_CLIENT_TOKEN"

  const TokenRequiredMessage: string :=
    "Client token is required when using API. Set it as parameter or " + EnvClientToken + " environment variable."
  const NotConfiguredMessage: string := "API URL not configured. Cannot send file to server."
  const ScannedMessage: string := "PDF содержит сканированное изображение. Требуется OCR."
  const MissingFieldsPrefix: string := "Missing required fields: "
  const HealthPath: string := "/api/health"
  const RecognizePath: string := "/api/v1/recognize"

  // ---------------------------------------------------------------------
  // Construction
  // ---------------------------------------------------------------------

  /** `s.rstrip('/')`: `s` without its trailing slashes. */
  function RStripSlash(s: string): (r: string)
    ensures |r| <= |s| && r == s[..|r|]
    ensures r == [] || r[|r| - 1] != '/'
    ensures forall i | |r| <= i < |s| :: s[i] == '/'
  {
    if s != [] && s[|s| - 1] == '/' then RStripSlash(s[..|s| - 1]) else s
  }

  /** Stripping twice strips nothing more. */
  lemma RStripSlashIdempotent(s: string)
    ensures RStripSlash(RStripSlash(s)) == RStripSlash(s)
  {
  }

  /** `(api_url or os.getenv(ENV_API_URL, "")).rstrip('/')`, with the
      environment given as `env`. */
  function ResolveUrl(apiUrl: Option<string>, env: map<string, string>): string {
    RStripSlash(if Truthy(apiUrl) then apiUrl.value else if EnvApiUrl in env then env[EnvApiUrl] else "")
  }

  /** `client_token or os.getenv(ENV_CLIENT_TOKEN)`. */
  function ResolveToken(clientToken: Option<string>, env: map<string, string>): Option<string> {
    if Truthy(clientToken) then clientToken
    else if EnvClientToken in env then Some(env[EnvClientToken])
    else None
  }

  /** What `GET {api_url}/api/health` gives: a `RequestException` with its
      text, or the status code and the body's `version` member. */
  datatype HealthResponse = Unreachable(reason: string) | Health(status: int, version: Option<string>)

  /** `info.get('version', '0.0.0')`. */
  function ServerVersion(version: Option<string>): string {
    if version.Some? then version.value else "0.0.0"
  }

  /** `_check_connection`: network failures and non-200 replies are only
      logged, and a `VersionMismatchError` would only be warned about; but
      `check_compatibility` raises a plain `Exception`, which escapes. */
  function CheckConnection(health: HealthResponse): (r: Outcome<Error>)
    ensures r.Fail? <==>
              health.Health? && health.status == 200 &&
              Major(ServerVersion(health.version)) != Major(ClientVersion)
    ensures r.Fail? ==> r.error.kind == Exception
  {
    match health
    case Unreachable(_) => Pass
    case Health(status, version) =>
      if status != 200 then Pass
      else
        var compatible := CheckCompatibility(ClientVersion, ServerVersion(version));
        if compatible.Success? then Pass
        else
          MismatchIsNotAVersionMismatchError(ClientVersion, ServerVersion(version));
          if IsA(compatible.error.kind, VersionMismatchError) then Pass else Fail(compatible.error)
  }

  /** A server that reports no version is taken to be "0.0.0", whose major
      differs from the client's, so the connection check fails. */
  lemma UnversionedServerRejected()
    ensures CheckConnection(Health(200, None)).Fail?
  {
    MajorOfDotted("0", "0.0");
    MajorOfDotted("1", "0.0");
  }

  /** The settings `__init__` arrives at. */
  datatype Settings = Settings(apiUrl: string, clientToken: Option<string>, localMode: bool)

  /** Local mode exactly without a URL, no trailing slash on the URL, and a
      token whenever the API is used. */
  predicate SettingsValid(s: Settings) {
    && (s.localMode <==> s.apiUrl == "")
    && (s.apiUrl == "" || s.apiUrl[|s.apiUrl| - 1] != '/')
    && (!s.localMode ==> Truthy(s.clientToken))
  }

  /** What `__init__` settles on, or the exception it raises; `health`
      answers the health request for a URL. */
  function Construction(apiUrl: Option<string>, clientToken: Option<string>, env: map<string, string>,
                        health: string -> HealthResponse): (r: Result<Settings, Error>)
    ensures r.Success? ==>
              && SettingsValid(r.value)
              && r.value.apiUrl == ResolveUrl(apiUrl, env)
              && r.value.clientToken == ResolveToken(clientToken, env)
    ensures ResolveUrl(apiUrl, env) == "" ==> r.Success? && r.value.localMode
    ensures ResolveUrl(apiUrl, env) != "" && !Truthy(ResolveToken(clientToken, env)) ==>
              r == Failure(Error(ValueError, TokenRequiredMessage))
    ensures ResolveUrl(apiUrl, env) != "" && Truthy(ResolveToken(clientToken, env)) ==>
              (r.Failure? <==> CheckConnection(health(ResolveUrl(apiUrl, env) + HealthPath)).Fail?)
  {
    var url := ResolveUrl(apiUrl, env);
    var token := ResolveToken(clientToken, env);
    if url == "" then Success(Settings(url, token, true))
    else if !Truthy(token) then Failure(Error(ValueError, TokenRequiredMessage))
    else
      var check := CheckConnection(health(url + HealthPath));
      if check.Fail? then Failure(check.error) else Success(Settings(url, token, false))
  }

  // ---------------------------------------------------------------------
  // recognize: the file's suffix
  // ---------------------------------------------------------------------

  /** `s.rfind(c)`: the last index of `c` in `s`, or -1. */
  function LastIndex(s: string, c: char): (r: int)
    ensures -1 <= r < |s|
    ensures r >= 0 ==> s[r] == c
    ensures forall i | r < i < |s| :: s[i] != c
  {
    if s == [] then -1
    else if s[|s| - 1] == c then |s| - 1
    else LastIndex(s[..|s| - 1], c)
  }

  /** `Path(path).name`: the last component, trailing slashes ignored. */
  function FileName(path: string): string {
    var p := RStripSlash(path);
    p[LastIndex(p, '/') + 1..]
  }

  /** `PurePath.suffix` of a name: from its last '.', provided that dot is
      neither the first nor the last character; else "". */
  function Suffix(name: string): string {
    var i := LastIndex(name, '.');
    if 0 < i < |name| - 1 then name[i..] else ""
  }

  /** `file_path.suffix.lower() == '.pdf'`. */
  predicate IsPdf(path: string) {
    Lower(Suffix(FileName(path))) == ".pdf"
  }

  /** A file is a PDF exactly when its name is longer than ".pdf" and ends
      in ".pdf" in any mix of cases; a bare ".pdf" is a hidden file with
      no suffix. */
  lemma IsPdfIffEndsInPdf(path: string)
    ensures var n := FileName(path);
            IsPdf(path) <==> |n| > 4 && Lower(n[|n| - 4..]) == ".pdf"
  {
    var n := FileName(path);
    if IsPdf(path) {
      var i := LastIndex(n, '.');
      var x := Suffix(n);
      assert |x| == 4 && Lower(x)[0] == '.';
      assert 0 < i < |n| - 1 && x == n[i..];
      assert i == |n| - 4;
    } else if |n| > 4 && Lower(n[|n| - 4..]) == ".pdf" {
      EndsInPdf(n);
    }
  }

  /** A name longer than ".pdf" that ends in it, in any case, has that
      suffix. */
  lemma EndsInPdf(n: string)
    requires |n| > 4 && Lower(n[|n| - 4..]) == ".pdf"
    ensures Lower(Suffix(n)) == ".pdf"
  {
    var x := n[|n| - 4..];
    assert LowerChar(x[0]) == '.';
    assert n[|n| - 4] == '.';
    forall k | |n| - 4 < k < |n| ensures n[k] != '.' {
      assert LowerChar(x[k - (|n| - 4)]) != '.';
    }
    var i := LastIndex(n, '.');
    assert i == |n| - 4;
    assert Suffix(n) == x;
  }

  // ---------------------------------------------------------------------
  // _combine_date_time and the local mapping
  // ---------------------------------------------------------------------

  /** `_combine_date_time(date_str, time_str)`. */
  function CombineDateTime(date: Option<string>, time: Option<string>): Option<string> {
    if !Truthy(date) then None
    else if Truthy(time) then Some(date.value + "T" + time.value)
    else date
  }

  /** `s.partition('T')` read back: the text before the first 'T', and what
      follows it if there is one. */
  function SplitAtT(s: string): (string, Option<string>) {
    if s == [] then ("", None)
    else if s[0] == 'T' then ("", Some(s[1..]))
    else var rest := SplitAtT(s[1..]); ([s[0]] + rest.0, rest.1)
  }

  lemma {:induction false} SplitAtTAfter(d: string, t: string)
    requires 'T' !in d
    ensures SplitAtT(d + "T" + t) == (d, Some(t))
    ensures SplitAtT(d) == (d, None)
  {
    if d != [] {
      SplitAtTAfter(d[1..], t);
      assert (d + "T" + t)[1..] == d[1..] + "T" + t;
      assert [d[0]] + d[1..] == d;
    }
  }

  /** The combined stamp splits back at the first 'T' into the date and the
      time it was made from (for a date without 'T'); no date, no stamp. */
  lemma CombineDateTimeSplits(date: Option<string>, time: Option<string>)
    ensures CombineDateTime(date, time).None? <==> !Truthy(date)
    ensures Truthy(date) && 'T' !in date.value ==>
              SplitAtT(CombineDateTime(date, time).value)
              == (date.value, if Truthy(time) then Some(time.value) else None)
  {
    if Truthy(date) && 'T' !in date.value {
      SplitAtTAfter(date.value, if time.Some? then time.value else "");
    }
  }

  /** `extracted.get(k)` on the pattern-results dict. */
  function Field(v: Value, k: string): Value {
    if v.Obj? && k in v.fields then v.fields[k] else Null
  }

  /** A pattern result, a string or `None`, as an optional string. */
  function AsOptString(v: Value): Option<string> {
    if v.Str? then Some(v.s) else None
  }

  /** The `mapped_result` dict built from the pattern results and the bank. */
  function MappedResult(extracted: Value, bank: Value): Dict {
    map["source" := Null, "destination" := Null,
        "amount" := Field(extracted, "amount"), "fee" := Field(extracted, "commission"),
        "date" := StrValue(CombineDateTime(AsOptString(Field(extracted, "date")), AsOptString(Field(extracted, "time")))),
        "bank" := bank, "raw_extracted" := extracted]
  }

  /** The dict returned for a document without searchable text. */
  function ScannedResult(): Dict {
    map["success" := Bool(false), "error" := Str(ScannedMessage), "source" := Str("pdf"), "is_scanned" := Bool(true)]
  }

  /** The receipt record tagged with its source, the scanned flag and the
      success flag. */
  function Tagged(result: Dict): Dict {
    result["source" := Str("pdf")]["is_scanned" := Bool(false)]["success" := Bool("error" !in result)]
  }

  /** The receipt record after the in-place updates of `_process_pdf_locally`:
      the tags, and the mapping when pattern results are present. */
  function LocalFromRecord(record: Dict): Dict {
    var tagged := Tagged(record);
    if "extracted" in tagged then tagged["mapped" := Obj(MappedResult(tagged["extracted"], Get(tagged, "bank")))]
    else tagged
  }

  /** `_process_pdf_locally` for the document at the path. */
  function LocalRecognition(doc: Document, search: (string, string) -> MatchOutcome): Dict {
    if !Searchable(doc) then ScannedResult()
    else LocalFromRecord(ReceiptData(doc, true, search))
  }

  /** The tags: source "pdf", not scanned, and success exactly when the
      record holds no error; the mapping, built from the pattern results
      and the bank entry, is added when pattern results are present. */
  lemma LocalFromRecordTags(record: Dict)
    ensures var r := LocalFromRecord(record);
            && Get(r, "success") == Bool("error" !in record)
            && Get(r, "source") == Str("pdf")
            && Get(r, "is_scanned") == Bool(false)
            && ("extracted" in r <==> "extracted" in record)
            && ("extracted" in record ==>
                  Get(r, "mapped") == Obj(MappedResult(record["extracted"], Get(record, "bank"))))
            && ("extracted" !in record ==> r == Tagged(record))
  {
  }

  /** The mapping of pattern results: no source or destination, the amount
      and the commission found as amount and fee, the combined date and
      time, the bank, and the raw results. */
  lemma MappedFromFound(found: map<string, Option<string>>, bank: Value)
    requires forall k | k in ["amount", "commission", "date", "time"] :: k in found
    ensures var m := MappedResult(ExtractedValue(found), bank);
            && Get(m, "source") == Null
            && Get(m, "destination") == Null
            && Get(m, "amount") == StrValue(found["amount"])
            && Get(m, "fee") == StrValue(found["commission"])
            && Get(m, "date") == StrValue(CombineDateTime(found["date"], found["time"]))
            && Get(m, "bank") == bank
            && Get(m, "raw_extracted") == ExtractedValue(found)
  {
    var extracted := ExtractedValue(found);
    assert AsOptString(Field(extracted, "date")) == found["date"];
    assert AsOptString(Field(extracted, "time")) == found["time"];
  }

  /** Without searchable text the scanned record comes back and no pattern
      is searched for; with it, the record succeeds. */
  lemma LocalSuccessIffSearchable(doc: Document, search: (string, string) -> MatchOutcome)
    ensures var r := LocalRecognition(doc, search);
            && Get(r, "success") == Bool(Searchable(doc))
            && Get(r, "source") == Str("pdf")
            && Get(r, "is_scanned") == Bool(!Searchable(doc))
            && ("extracted" in r <==> Searchable(doc))
  {
    if Searchable(doc) {
      ReceiptDataWithPatterns(doc, search);
      LocalFromRecordTags(ReceiptData(doc, true, search));
    }
  }

  /** For a searchable document, the mapping carries no source or
      destination, the amount and the commission found by the patterns as
      amount and fee, the combined date and time, and the detected bank. */
  lemma LocalMapping(doc: Document, search: (string, string) -> MatchOutcome)
    requires Searchable(doc)
    ensures var found := PatternResults(FullText(doc.pages), ReceiptPatterns, search);
            && (forall k | k in ["amount", "commission", "date", "time"] :: k in found)
            && Get(LocalRecognition(doc, search), "mapped")
               == Obj(MappedResult(ExtractedValue(found), StrValue(DetectBank(Lower(FullText(doc.pages))))))
  {
    ReceiptFields(FullText(doc.pages), search);
    ReceiptDataWithPatterns(doc, search);
    LocalFromRecordTags(ReceiptData(doc, true, search));
  }

  // ---------------------------------------------------------------------
  // _validate_result
  // ---------------------------------------------------------------------

  /** What `_validate_result(result)` does: return, or raise a
      `ValidationError` naming the missing base fields in schema order. */
  function Validation(result: Dict): Outcome<Error> {
    var missing := MissingFields(result, BaseFields);
    if missing == [] then Pass
    else Fail(Error(ValidationError, MissingFieldsPrefix + Join(missing, ", ")))
  }

  /** The check passes exactly when `validate_fields` is true, that is when
      every base field is present and not `None`. */
  lemma ValidationAgreesWithValidateFields(result: Dict)
    ensures Validation(result).Pass? <==> ValidateFields(result)
    ensures Validation(result).Pass? <==> forall f | f in BaseFields :: f in result && result[f] != Null
  {
    NothingMissing(result, BaseFields);
  }

  /** Every missing field is named in the message, not only the first. */
  lemma ValidationNamesEveryMissingField(result: Dict, f: string)
    requires f in BaseFields && Missing(result, f)
    ensures Validation(result).Fail?
    ensures Validation(result).error.kind == ValidationError
    ensures IsInfix(f, Validation(result).error.message)
  {
    var missing := MissingFields(result, BaseFields);
    var k :| 0 <= k < |missing| && missing[k] == f;
    JoinHasParts(missing, ", ", k);
    InfixWiden(f, Join(missing, ", "), MissingFieldsPrefix, "");
    assert MissingFieldsPrefix + Join(missing, ", ") + "" == MissingFieldsPrefix + Join(missing, ", ");
  }

  /** An empty `data` dict misses all five fields, named in schema order. */
  lemma EmptyDataMissesEverything()
    ensures Validation(map[]) == Fail(Error(ValidationError, MissingFieldsPrefix + Join(BaseFields, ", ")))
  {
    AllMissingFromEmpty(BaseFields);
  }

  /** An empty dict misses every field. */
  lemma {:induction false} AllMissingFromEmpty(fields: seq<string>)
    ensures MissingList(map[], fields) == fields
  {
    if fields != [] {
      AllMissingFromEmpty(fields[1..]);
      assert [fields[0]] + fields[1..] == fields;
    }
  }

  // ---------------------------------------------------------------------
  // _send_to_api
  // ---------------------------------------------------------------------

  /** The upload `requests.post` is given: URL, form field, file name and
      content type, and the headers. */
  datatype Request = Request(url: string, field: string, fileName: string, contentType: string,
                             headers: map<string, Option<string>>)

  /** What the POST gives: a `RequestException` with its text, or the
      status and the body's `error` and `data` members (`None` when absent). */
  datatype ApiReply = NetworkError(reason: string) | Reply(status: int, error: Option<Value>, data: Option<Dict>)

  /** The handling of the reply: a network failure and a non-200 status
      become `APIError`s; a 200 reply yields its `data` once it passed the
      required-field check. `render` stands for `str()`. */
  function ApiOutcome(reply: ApiReply, render: Value -> string): Result<Dict, Error> {
    match reply
    case NetworkError(reason) => Failure(Error(APIError, "Network error: " + reason))
    case Reply(status, error, data) =>
      if status != 200 then
        Failure(Error(APIError, "API Error " + DecimalString(status) + ": "
                                + (if error.Some? then PyStr(error.value, render) else "Unknown error")))
      else
        var d := if data.Some? then data.value else map[];
        var check := Validation(d);
        if check.Fail? then Failure(check.error) else Success(d)
  }

  /** Data comes back only from a 200 reply, and only complete data:
      exactly the reply's `data`, every base field present and not `None`. */
  lemma ApiReturnsOnlyValidData(reply: ApiReply, render: Value -> string)
    ensures var r := ApiOutcome(reply, render);
            r.Success? ==> reply.Reply? && reply.status == 200 && ValidateFields(r.value) &&
                           r.value == (if reply.data.Some? then reply.data.value else map[])
  {
    if reply.Reply? && reply.status == 200 {
      ValidationAgreesWithValidateFields(if reply.data.Some? then reply.data.value else map[]);
    }
  }

  /** A rejection carries the server's `error` text in its message. */
  lemma ApiErrorCarriesServerText(status: int, text: string, data: Option<Dict>, render: Value -> string)
    requires status != 200
    ensures var r := ApiOutcome(Reply(status, Some(Str(text)), data), render);
            r.Failure? && r.error.kind == APIError && IsInfix(text, r.error.message)
  {
    var prefix := "API Error " + DecimalString(status) + ": ";
    InfixMiddle(prefix, text, "");
    assert prefix + text + "" == prefix + text;
  }

  /** A 401 with `{"error": "Invalid token"}` raises
      `APIError("API Error 401: Invalid token")`. */
  lemma InvalidTokenReply(render: Value -> string)
    ensures ApiOutcome(Reply(401, Some(Str("Invalid token")), None), render)
         == Failure(Error(APIError, "API Error 401: Invalid token"))
  {
    assert DigitString(4) == "4";
    assert DigitString(40) == "40";
    assert DigitString(401) == "401";
    assert DecimalString(401) == "401";
    assert "API Error " + "401" + ": " + "Invalid token" == "API Error 401: Invalid token";
  }

  // ---------------------------------------------------------------------
  // The client object
  // ---------------------------------------------------------------------

  /** `ReceiptRecognizerClient`: its settings, set once by the constructor. */
  class ReceiptRecognizerClient {
    var apiUrl: string
    var clientToken: Option<string>
    var timeout: int
    var verifySsl: bool
    var processPdfLocally: bool
    var localMode: bool

    ghost predicate Valid()
      reads this
    {
      SettingsValid(Settings(apiUrl, clientToken, localMode))
    }

    /** The field assignments of `__init__`, once the settings are known. */
    constructor (settings: Settings, timeout: int, verifySsl: bool, processPdfLocally: bool)
      requires SettingsValid(settings)
      ensures Valid()
      ensures apiUrl == settings.apiUrl && clientToken == settings.clientToken && localMode == settings.localMode
      ensures this.timeout == timeout && this.verifySsl == verifySsl && this.processPdfLocally == processPdfLocally
    {
      apiUrl := settings.apiUrl;
      clientToken := settings.clientToken;
      this.timeout := timeout;
      this.verifySsl := verifySsl;
      this.processPdfLocally := processPdfLocally;
      localMode := settings.localMode;
    }

    /** `ReceiptRecognizerClient(api_url, client_token, timeout, verify_ssl,
        process_pdf_locally)` with the environment `env`: a client with the
        settings `Construction` gives, or the exception it raises. */
    static method Create(apiUrl: Option<string>, clientToken: Option<string>, timeout: int, verifySsl: bool,
                         processPdfLocally: bool, env: map<string, string>, health: string -> HealthResponse)
      returns (r: Result<ReceiptRecognizerClient, Error>)
      ensures Construction(apiUrl, clientToken, env, health).Failure? ==>
                r == Failure(Construction(apiUrl, clientToken, env, health).error)
      ensures Construction(apiUrl, clientToken, env, health).Success? ==>
                && r.Success? && fresh(r.value) && r.value.Valid()
                && Settings(r.value.apiUrl, r.value.clientToken, r.value.localMode)
                   == Construction(apiUrl, clientToken, env, health).value
                && r.value.timeout == timeout && r.value.verifySsl == verifySsl
                && r.value.processPdfLocally == processPdfLocally
    {
      var url := ResolveUrl(apiUrl, env);
      var token := ResolveToken(clientToken, env);
      var local: bool;
      if url == "" {
        local := true;
      } else {
        local := false;
        if !Truthy(token) {
          return Failure(Error(ValueError, TokenRequiredMessage));
        }
        var check := CheckConnection(health(url + HealthPath));
        if check.Fail? {
          return Failure(check.error);
        }
      }
      var client := new ReceiptRecognizerClient(Settings(url, token, local), timeout, verifySsl, processPdfLocally);
      return Success(client);
    }

    /** `recognize` takes the local path for a PDF when local processing is
        allowed or there is no API. */
    predicate TakesLocalPath(path: string)
      reads this
    {
      IsPdf(path) && (processPdfLocally || localMode)
    }

    /** The upload `_send_to_api` prepares for `path`. */
    function RequestFor(path: string): (req: Request)
      reads this
      ensures req.url == apiUrl + RecognizePath
      ensures req.field == "pdf" <==> IsPdf(path)
      ensures req.headers.Keys == {"X-Client-Token", "X-Client-Version"}
      ensures req.headers["X-Client-Token"] == clientToken && req.headers["X-Client-Version"] == Some(ClientVersion)
    {
      var pdf := IsPdf(path);
      Request(apiUrl + RecognizePath, if pdf then "pdf" else "image", FileName(path),
              if pdf then "application/pdf" else "image/jpeg",
              map["X-Client-Token" := clientToken, "X-Client-Version" := Some(ClientVersion)])
    }

    /** What the constructor's checks buy the upload: outside local mode a
        client sends a non-empty `X-Client-Token`, and the request goes to
        the URL without its trailing slashes followed by the recognize path. */
    lemma RemoteRequestCarriesToken(path: string)
      requires Valid() && !localMode
      ensures Truthy(RequestFor(path).headers["X-Client-Token"])
      ensures apiUrl != [] && apiUrl[|apiUrl| - 1] != '/'
      ensures RequestFor(path).url == apiUrl + RecognizePath
    {
    }

    /** `_send_to_api(path)` when the server answers `send(request)`. */
    function ApiRecognition(path: string, send: Request -> ApiReply, render: Value -> string): Result<Dict, Error>
      reads this
    {
      if localMode then Failure(Error(ValueError, NotConfiguredMessage))
      else ApiOutcome(send(RequestFor(path)), render)
    }

    /** `recognize(path)` for the document at `path`. */
    function Recognition(path: string, doc: Document, send: Request -> ApiReply,
                         search: (string, string) -> MatchOutcome, render: Value -> string): Result<Dict, Error>
      reads this
    {
      if TakesLocalPath(path) then Success(LocalRecognition(doc, search))
      else ApiRecognition(path, send, render)
    }

    /** In local mode a PDF is always processed locally, whatever
        `process_pdf_locally` says, and anything else is refused with
        `ValueError` before any request is made. */
    lemma LocalModeRouting(path: string, doc: Document, send: Request -> ApiReply,
                           search: (string, string) -> MatchOutcome, render: Value -> string)
      requires localMode
      ensures IsPdf(path) ==> Recognition(path, doc, send, search, render) == Success(LocalRecognition(doc, search))
      ensures !IsPdf(path) ==>
                Recognition(path, doc, send, search, render) == Failure(Error(ValueError, NotConfiguredMessage))
    {
    }

    /** With the API in use and local processing off, every file, PDF or
        not, goes to the server, and only a validated 200 reply succeeds. */
    lemma RemoteRouting(path: string, doc: Document, send: Request -> ApiReply,
                        search: (string, string) -> MatchOutcome, render: Value -> string)
      requires !localMode && !processPdfLocally
      ensures Recognition(path, doc, send, search, render) == ApiOutcome(send(RequestFor(path)), render)
      ensures Recognition(path, doc, send, search, render).Success? ==>
                ValidateFields(Recognition(path, doc, send, search, render).value)
    {
      ApiReturnsOnlyValidData(send(RequestFor(path)), render);
    }

    /** `_validate_result`: one check per base field, in schema order. */
    method ValidateResult(result: Dict) returns (r: Outcome<Error>)
      ensures r == Validation(result)
    {
      var missingFields: seq<string> := [];
      for i := 0 to |BaseFields|
        invariant missingFields == MissingFields(result, BaseFields[..i])
      {
        var field := BaseFields[i];
        MissingFieldsSnoc(result, BaseFields, i);
        if field !in result || result[field] == Null {
          missingFields := missingFields + [field];
        }
      }
      assert BaseFields[..|BaseFields|] == BaseFields;
      if missingFields != [] {
        return Fail(Error(ValidationError, MissingFieldsPrefix + Join(missingFields, ", ")));
      }
      return Pass;
    }

    /** `_process_pdf_locally`: the scanned record, or the receipt record
        updated in place with its tags and the mapping. */
    method ProcessPdfLocally(doc: Document, search: (string, string) -> MatchOutcome) returns (r: Dict)
      ensures r == LocalRecognition(doc, search)
    {
      var searchable := IsSearchablePdf(doc);
      if !searchable {
        return ScannedResult();
      }
      r := ProcessReceiptPdf(doc, true, search);
      var hadError := "error" in r;
      r := r["source" := Str("pdf")];
      r := r["is_scanned" := Bool(false)];
      r := r["success" := Bool(!hadError)];
      if "extracted" in r {
        var extracted := r["extracted"];
        var mapped := MappedResult(extracted, Get(r, "bank"));
        r := r["mapped" := Obj(mapped)];
      }
    }

    /** `_send_to_api(path)`: refused in local mode; otherwise the upload,
        then the handling of the server's reply. */
    method SendToApi(path: string, send: Request -> ApiReply, render: Value -> string)
      returns (r: Result<Dict, Error>)
      ensures r == ApiRecognition(path, send, render)
    {
      if localMode {
        return Failure(Error(ValueError, NotConfiguredMessage));
      }
      var request := RequestFor(path);
      var reply := send(request);
      match reply
      case NetworkError(reason) =>
        return Failure(Error(APIError, "Network error: " + reason));
      case Reply(status, error, data) =>
        if status != 200 {
          var text := if error.Some? then PyStr(error.value, render) else "Unknown error";
          return Failure(Error(APIError, "API Error " + DecimalString(status) + ": " + text));
        }
        var result := if data.Some? then data.value else map[];
        var check := ValidateResult(result);
        if check.Fail? {
          return Failure(check.error);
        }
        return Success(result);
    }

    /** `recognize(path)`. */
    method Recognize(path: string, doc: Document, send: Request -> ApiReply,
                     search: (string, string) -> MatchOutcome, render: Value -> string)
      returns (r: Result<Dict, Error>)
      ensures r == Recognition(path, doc, send, search, render)
    {
      var isPdf := Lower(Suffix(FileName(path))) == ".pdf";
      if isPdf && (processPdfLocally || localMode) {
        var local := ProcessPdfLocally(doc, search);
        return Success(local);
      }
      r := SendToApi(path, send, render);
    }
  }
}
