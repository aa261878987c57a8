/**
 * The editor's client-side store: the settings it restores from and saves to
 * the browser's local storage, and `runCode`, which sends the editor's code
 * to the Piston execution service and classifies the reply.
 */
module EditorStore {
  import opened Wrappers

  // ---------------------------------------------------------------------
  // JavaScript string helpers: String.prototype.trim and Number()
  // ---------------------------------------------------------------------

  /** The characters `trim` removes: ECMAScript WhiteSpace and LineTerminator. */
  predicate IsJsSpace(c: char) {
    || c == '\t' || c == '\U{000B}' || c == '\U{000C}' || c == ' ' || c == '\U{00A0}' || c == '\U{FEFF}'
    || c == '\U{1680}' || ('\U{2000}' <= c <= '\U{200A}') || c == '\U{202F}' || c == '\U{205F}' || c == '\U{3000}'
    || c == '\n' || c == '\r' || c == '\U{2028}' || c == '\U{2029}'
  }

  /** How many whitespace characters `s` starts with. */
  function LeadingSpaces(s: string): (n: nat)
    ensures n <= |s|
    ensures forall k :: 0 <= k < n ==> IsJsSpace(s[k])
    ensures n < |s| ==> !IsJsSpace(s[n])
  {
    if s != [] && IsJsSpace(s[0]) then 1 + LeadingSpaces(s[1..]) else 0
  }

  /** How many whitespace characters `s` ends with. */
  function TrailingSpaces(s: string): (n: nat)
    ensures n <= |s|
    ensures forall k :: |s| - n <= k < |s| ==> IsJsSpace(s[k])
    ensures n < |s| ==> !IsJsSpace(s[|s| - n - 1])
  {
    if s != [] && IsJsSpace(s[|s| - 1]) then 1 + TrailingSpaces(s[..|s| - 1]) else 0
  }

  /** `s.trim()`: the middle of `s` without leading or trailing whitespace. */
  function Trim(s: string): (t: string)
    ensures |t| <= |s|
    ensures t != [] ==> !IsJsSpace(t[0]) && !IsJsSpace(t[|t| - 1])
    ensures LeadingSpaces(s) + |t| <= |s| && t == s[LeadingSpaces(s)..LeadingSpaces(s) + |t|]
    ensures forall k :: LeadingSpaces(s) + |t| <= k < |s| ==> IsJsSpace(s[k])
  {
    var a := LeadingSpaces(s);
    var rest := s[a..];
    var b := TrailingSpaces(rest);
    var t := rest[..|rest| - b];
    assert t == s[a..a + |t|];
    t
  }

  /** Trimming twice is trimming once. */
  lemma TrimIdempotent(s: string)
    ensures Trim(Trim(s)) == Trim(s)
  {
    var t := Trim(s);
    if t != [] {
      assert LeadingSpaces(t) == 0;
      assert TrailingSpaces(t) == 0;
      assert t[0..][..|t|] == t;
    }
  }

  predicate IsDigit(c: char) {
    '0' <= c <= '9'
  }

  predicate AllDigits(s: string) {
    forall k :: 0 <= k < |s| ==> IsDigit(s[k])
  }

  /** The value of a string of decimal digits. */
  function DigitsValue(ds: string): nat
    requires AllDigits(ds)
  {
    if ds == [] then 0 else DigitsValue(ds[..|ds| - 1]) * 10 + (ds[|ds| - 1] as int - '0' as int)
  }

  /**
   * What `Number()` gives for a stored string, for the forms the store writes
   * and plain integers: surrounding whitespace ignored, an empty remainder is
   * zero, an optional sign before decimal digits. Any other text (fractions,
   * exponents, hexadecimal, NaN) is kept unparsed.
   */
  datatype JsNumber = Int(value: int) | Unparsed(text: string)

  function ToNumber(s: string): (n: JsNumber)
    ensures n.Unparsed? ==> n.text == s
    ensures Trim(s) == "" ==> n == Int(0)
    ensures AllDigits(Trim(s)) ==> n == Int(DigitsValue(Trim(s)))
  {
    var t := Trim(s);
    if t == "" then Int(0)
    else if AllDigits(t) then Int(DigitsValue(t))
    else if |t| > 1 && t[0] == '+' && AllDigits(t[1..]) then Int(DigitsValue(t[1..]))
    else if |t| > 1 && t[0] == '-' && AllDigits(t[1..]) then Int(-(DigitsValue(t[1..]) as int))
    else Unparsed(s)
  }

  /** The decimal digits of `n`. */
  function NatToString(n: nat): (s: string)
    ensures |s| >= 1 && AllDigits(s)
    ensures DigitsValue(s) == n
  {
    var d := [('0' as int + n % 10) as char];
    if n < 10 then d
    else
      var s := NatToString(n / 10) + d;
      assert s[..|s| - 1] == NatToString(n / 10);
      s
  }

  /** `n.toString()` for an integer. */
  function IntToString(n: int): (s: string)
    ensures s != ""
  {
    if n < 0 then "-" + NatToString(-n) else NatToString(n)
  }

  /** `Number(n.toString())` is `n` again. */
  lemma NumberOfToString(n: int)
    ensures ToNumber(IntToString(n)) == Int(n)
  {
    var s := IntToString(n);
    var ds := NatToString(if n < 0 then -n else n);
    assert !IsJsSpace(s[0]) && !IsJsSpace(s[|s| - 1]);
    assert LeadingSpaces(s) == 0;
    assert s[0..] == s;
    assert TrailingSpaces(s) == 0;
    assert Trim(s) == s;
    if n < 0 {
      assert s[1..] == ds;
      assert !IsDigit(s[0]);
    }
  }

  // ---------------------------------------------------------------------
  // Saved settings
  // ---------------------------------------------------------------------

  const DefaultLanguage: string := "javascript"
  const DefaultTheme: string := "vs-dark"
  const DefaultFontSize: int := 16

  const LanguageKey: string := "editor-language"
  const ThemeKey: string := "editor-theme"
  const FontSizeKey: string := "editor-font-size"

  /** Where the code written for a language is kept. */
  function CodeKey(language: string): (key: string)
    ensures key != LanguageKey && key != ThemeKey && key != FontSizeKey
  {
    var key := "editor-code-" + language;
    assert key[7] == 'c' && LanguageKey[7] == 'l' && ThemeKey[7] == 't' && FontSizeKey[7] == 'f';
    key
  }

  /** `localStorage.getItem(key) || fallback`: a missing item and an empty one both fall back. */
  function ItemOr(items: map<string, string>, key: string, fallback: string): (v: string)
    ensures key in items && items[key] != "" ==> v == items[key]
    ensures key !in items || items[key] == "" ==> v == fallback
  {
    if key in items && items[key] != "" then items[key] else fallback
  }

  datatype Settings = Settings(language: string, theme: string, fontSize: JsNumber)

  /**
   * getInitialState: the defaults on the server (no local storage), otherwise
   * each saved setting, or its default when it is missing or empty.
   */
  function InitialSettings(storage: Option<map<string, string>>): (r: Settings)
    ensures storage.None? ==> r == Settings(DefaultLanguage, DefaultTheme, Int(DefaultFontSize))
    ensures storage.Some? ==>
              && r.language == ItemOr(storage.value, LanguageKey, DefaultLanguage)
              && r.theme == ItemOr(storage.value, ThemeKey, DefaultTheme)
    ensures storage.Some? && (FontSizeKey !in storage.value || storage.value[FontSizeKey] == "") ==>
              r.fontSize == Int(DefaultFontSize)
    ensures storage.Some? && FontSizeKey in storage.value && storage.value[FontSizeKey] != "" ==>
              r.fontSize == ToNumber(storage.value[FontSizeKey])
  {
    match storage
    case None => Settings(DefaultLanguage, DefaultTheme, Int(DefaultFontSize))
    case Some(items) =>
      var fontSize := if FontSizeKey in items && items[FontSizeKey] != "" then ToNumber(items[FontSizeKey])
                      else Int(DefaultFontSize);
      Settings(ItemOr(items, LanguageKey, DefaultLanguage), ItemOr(items, ThemeKey, DefaultTheme), fontSize)
  }

  /** What setLanguage leaves in storage: the current code saved under the old language, and the new language. */
  function AfterLanguageSwitch(items: map<string, string>, from: string, code: string, to: string): map<string, string>
  {
    (if code != "" then items[CodeKey(from) := code] else items)[LanguageKey := to]
  }

  /** The text setEditor leaves in the editor: the code saved for the language, when there is some. */
  function EditorText(items: map<string, string>, language: string, current: string): (text: string)
    ensures CodeKey(language) in items && items[CodeKey(language)] != "" ==> text == items[CodeKey(language)]
    ensures CodeKey(language) !in items || items[CodeKey(language)] == "" ==> text == current
  {
    ItemOr(items, CodeKey(language), current)
  }

  /** A reload after setLanguage, setTheme or setFontSize restores what was set, except an empty string. */
  lemma SettingsSurviveReload(items: map<string, string>, from: string, code: string, language: string,
                              theme: string, fontSize: int)
    ensures InitialSettings(Some(AfterLanguageSwitch(items, from, code, language))).language ==
            if language == "" then DefaultLanguage else language
    ensures InitialSettings(Some(items[ThemeKey := theme])).theme == if theme == "" then DefaultTheme else theme
    ensures InitialSettings(Some(items[FontSizeKey := IntToString(fontSize)])).fontSize == Int(fontSize)
  {
    NumberOfToString(fontSize);
  }

  /**
   * Switching away from a language and back, then mounting the editor, brings
   * back the code that was in the editor when the switch happened.
   */
  lemma CodeSurvivesLanguageRoundTrip(items: map<string, string>, a: string, b: string,
                                      code: string, codeB: string, current: string)
    requires a != b && code != ""
    ensures var there := AfterLanguageSwitch(items, a, code, b);
            var back := AfterLanguageSwitch(there, b, codeB, a);
            EditorText(back, a, current) == code
  {
    assert CodeKey(a)[12..] == a && CodeKey(b)[12..] == b;
    assert CodeKey(a) != CodeKey(b);
  }

  // ---------------------------------------------------------------------
  // The Piston reply and its classification
  // ---------------------------------------------------------------------

  /** A compile or run stage of the reply; `code` is null when the process was killed. */
  datatype Phase = Phase(code: Option<int>, stdout: string, stderr: string, output: string)

  /** The parsed reply body: an optional error message and optional stages. */
  datatype PistonResponse = PistonResponse(message: Option<string>, compile: Option<Phase>, run: Option<Phase>)

  /** What awaiting `fetch` and `response.json()` gave: a parsed body, or a thrown error. */
  datatype Fetched = Threw | Responded(data: PistonResponse)

  /** `LANGUAGE_CONFIG[language].pistonRuntime`. */
  datatype Runtime = Runtime(language: string, version: string)

  /** The request body: the runtime and a single file holding the code. */
  datatype PistonRequest = PistonRequest(language: string, version: string, content: string)

  /** What the store keeps as `executionResult`. */
  datatype ExecutionResult = ExecutionResult(code: string, output: string, error: Option<string>)

  const EmptyCodeMessage: string := "Please enter some code to run."
  const RunFailedMessage: string := "Error running code"

  /** A stage that exited with a code other than 0 (a null code counts as failed). */
  predicate Failed(phase: Option<Phase>) {
    phase.Some? && phase.value.code != Some(0)
  }

  /** `stderr || output`: the failure's message. */
  function FailureText(phase: Phase): (text: string)
    ensures phase.stderr != "" ==> text == phase.stderr
    ensures phase.stderr == "" ==> text == phase.output
  {
    if phase.stderr != "" then phase.stderr else phase.output
  }

  /** The reply describes a successful run: no message, no failed stage, and a run stage. */
  predicate Succeeded(data: PistonResponse) {
    && (data.message.None? || data.message.value == "")
    && !Failed(data.compile)
    && data.run.Some? && !Failed(data.run)
  }

  /**
   * The try block of runCode after the request: a message first, then a
   * failed compile, then a failed run, then the trimmed run output. A reply
   * without a run stage makes `data.run.output` throw, which the catch block
   * reports like any other error.
   */
  function Classify(code: string, fetched: Fetched): (r: ExecutionResult)
    ensures r.code == code
    ensures r.error.None? <==> fetched.Responded? && Succeeded(fetched.data)
    ensures r.error.None? ==> r.output == Trim(fetched.data.run.value.output)
    ensures r.error.Some? ==> r.output == ""
    ensures fetched.Threw? ==> r.error == Some(RunFailedMessage)
    ensures fetched.Responded? && (fetched.data.message.None? || fetched.data.message.value == "") &&
            !Failed(fetched.data.compile) && Failed(fetched.data.run) ==>
              r.error == Some(FailureText(fetched.data.run.value))
    ensures fetched.Responded? && (fetched.data.message.None? || fetched.data.message.value == "") &&
            !Failed(fetched.data.compile) && fetched.data.run.None? ==>
              r.error == Some(RunFailedMessage)
  {
    match fetched
    case Threw => ExecutionResult(code, "", Some(RunFailedMessage))
    case Responded(data) =>
      if data.message.Some? && data.message.value != "" then ExecutionResult(code, "", data.message)
      else if Failed(data.compile) then ExecutionResult(code, "", Some(FailureText(data.compile.value)))
      else if Failed(data.run) then ExecutionResult(code, "", Some(FailureText(data.run.value)))
      else if data.run.None? then ExecutionResult(code, "", Some(RunFailedMessage))
      else ExecutionResult(code, Trim(data.run.value.output), None)
  }

  /** A message decides the result, whatever the stages say. */
  lemma MessageWins(code: string, m: string, c: Option<Phase>, r: Option<Phase>, c': Option<Phase>, r': Option<Phase>)
    requires m != ""
    ensures Classify(code, Responded(PistonResponse(Some(m), c, r))) ==
            Classify(code, Responded(PistonResponse(Some(m), c', r')))
    ensures Classify(code, Responded(PistonResponse(Some(m), c, r))).error == Some(m)
  {
  }

  /** A failed compile decides the result; the run stage is not consulted. */
  lemma CompileFailureIgnoresRun(code: string, m: Option<string>, c: Phase, r: Option<Phase>, r': Option<Phase>)
    requires m.None? || m.value == ""
    requires c.code != Some(0)
    ensures Classify(code, Responded(PistonResponse(m, Some(c), r))) ==
            Classify(code, Responded(PistonResponse(m, Some(c), r')))
    ensures Classify(code, Responded(PistonResponse(m, Some(c), r))).error == Some(FailureText(c))
  {
  }

  /** A successful run's output has no surrounding whitespace. */
  lemma SuccessOutputTrimmed(code: string, fetched: Fetched)
    ensures var r := Classify(code, fetched);
            r.error.None? ==> Trim(r.output) == r.output
  {
    if Classify(code, fetched).error.None? {
      TrimIdempotent(fetched.data.run.value.output);
    }
  }

  /** runCode after the empty check: an unknown language throws before anything is sent. */
  function Dispatched(config: map<string, Runtime>, language: string, code: string, fetched: Fetched): (r: ExecutionResult)
    ensures language !in config ==> r == ExecutionResult(code, "", Some(RunFailedMessage))
    ensures language in config ==> r == Classify(code, fetched)
  {
    if language in config then Classify(code, fetched) else ExecutionResult(code, "", Some(RunFailedMessage))
  }

  /** A run waiting for its reply: the code captured before the await and the request sent for it. */
  datatype Flight = Flight(code: string, request: PistonRequest)

  // ---------------------------------------------------------------------
  // The stores
  // ---------------------------------------------------------------------

  /** The browser's local storage. */
  class LocalStorage {
    var items: map<string, string>

    constructor (items: map<string, string>)
      ensures this.items == items
    {
      this.items := items;
    }
  }

  /** The store's state; `editor` is the text of the mounted editor, if one is mounted. */
  class Store {
    var language: string
    var theme: string
    var fontSize: JsNumber
    var output: string
    var isRunning: bool
    var error: Option<string>
    var editor: Option<string>
    var executionResult: Option<ExecutionResult>

    /** The store as created, on the server (`None`) or in a browser with these saved items. */
    constructor (storage: Option<map<string, string>>)
      ensures Settings(language, theme, fontSize) == InitialSettings(storage)
      ensures output == "" && !isRunning && error.None? && editor.None? && executionResult.None?
    {
      var initial := InitialSettings(storage);
      language, theme, fontSize := initial.language, initial.theme, initial.fontSize;
      output, isRunning, error, editor, executionResult := "", false, None, None, None;
    }

    /** getCode: the editor's text, or "" without an editor. */
    function GetCode(): (code: string)
      reads this
      ensures editor.None? ==> code == ""
      ensures editor.Some? ==> code == editor.value
    {
      if editor.Some? then editor.value else ""
    }

    /** setEditor: mount an editor showing `current`, replaced by the code saved for the language. */
    method SetEditor(storage: LocalStorage, current: string)
      modifies this
      ensures editor == Some(EditorText(storage.items, language, current))
      ensures language == old(language) && theme == old(theme) && fontSize == old(fontSize)
      ensures output == old(output) && isRunning == old(isRunning) && error == old(error)
      ensures executionResult == old(executionResult)
    {
      var key := CodeKey(language);
      if key in storage.items && storage.items[key] != "" {
        editor := Some(storage.items[key]);
      } else {
        editor := Some(current);
      }
    }

    method SetTheme(storage: LocalStorage, theme: string)
      modifies this, storage
      ensures storage.items == old(storage.items)[ThemeKey := theme]
      ensures this.theme == theme
      ensures language == old(language) && fontSize == old(fontSize) && editor == old(editor)
      ensures output == old(output) && isRunning == old(isRunning) && error == old(error)
      ensures executionResult == old(executionResult)
    {
      storage.items := storage.items[ThemeKey := theme];
      this.theme := theme;
    }

    method SetFontSize(storage: LocalStorage, fontSize: int)
      modifies this, storage
      ensures storage.items == old(storage.items)[FontSizeKey := IntToString(fontSize)]
      ensures this.fontSize == Int(fontSize)
      ensures language == old(language) && theme == old(theme) && editor == old(editor)
      ensures output == old(output) && isRunning == old(isRunning) && error == old(error)
      ensures executionResult == old(executionResult)
    {
      storage.items := storage.items[FontSizeKey := IntToString(fontSize)];
      this.fontSize := Int(fontSize);
    }

    /** setLanguage: save the editor's code under the old language, switch, and clear output and error. */
    method SetLanguage(storage: LocalStorage, language: string)
      modifies this, storage
      ensures storage.items == AfterLanguageSwitch(old(storage.items), old(this.language), old(GetCode()), language)
      ensures this.language == language && output == "" && error.None?
      ensures theme == old(theme) && fontSize == old(fontSize) && editor == old(editor)
      ensures isRunning == old(isRunning) && executionResult == old(executionResult)
    {
      var currentCode := GetCode();
      if currentCode != "" {
        storage.items := storage.items[CodeKey(this.language) := currentCode];
      }
      storage.items := storage.items[LanguageKey := language];
      this.language := language;
      output := "";
      error := None;
    }

    /**
     * runCode up to its await: refuse empty code, enter the running state
     * and build the request from the language selected now. An unknown
     * language throws before anything is sent, so that run ends here; the
     * `flight` returned otherwise holds the code captured for the reply.
     */
    method StartRun(config: map<string, Runtime>) returns (flight: Option<Flight>)
      modifies this
      ensures old(GetCode()) == "" ==>
                && flight.None?
                && error == Some(EmptyCodeMessage)
                && output == old(output) && isRunning == old(isRunning)
                && executionResult == old(executionResult)
      ensures old(GetCode()) != "" && language !in config ==>
                && flight.None?
                && error == Some(RunFailedMessage) && output == "" && !isRunning
                && executionResult == Some(ExecutionResult(old(GetCode()), "", Some(RunFailedMessage)))
      ensures old(GetCode()) != "" && language in config ==>
                && flight == Some(Flight(old(GetCode()), PistonRequest(config[language].language,
                                                                       config[language].version, old(GetCode()))))
                && isRunning && error.None? && output == ""
                && executionResult == old(executionResult)
      ensures language == old(language) && theme == old(theme) && fontSize == old(fontSize)
      ensures editor == old(editor)
    {
      var code := GetCode();
      if code == "" {
        error := Some(EmptyCodeMessage);
        return None;
      }
      isRunning, error, output := true, None, "";
      if language !in config {
        error, executionResult := Some(RunFailedMessage), Some(ExecutionResult(code, "", Some(RunFailedMessage)));
        isRunning := false;
        return None;
      }
      var runtime := config[language];
      flight := Some(Flight(code, PistonRequest(runtime.language, runtime.version, code)));
    }

    /**
     * runCode after its await: classify the reply for the code captured
     * when the run started, whatever the editor or language hold now, and
     * leave the running state. A failure leaves `output` as it is.
     */
    method FinishRun(flight: Flight, fetched: Fetched)
      modifies this
      ensures executionResult == Some(Classify(flight.code, fetched))
      ensures error == executionResult.value.error
      ensures output == if error.None? then executionResult.value.output else old(output)
      ensures !isRunning
      ensures language == old(language) && theme == old(theme) && fontSize == old(fontSize)
      ensures editor == old(editor)
    {
      var result := Classify(flight.code, fetched);
      if result.error.None? {
        output := result.output;
      }
      error, executionResult := result.error, Some(result);
      isRunning := false;
    }

    /**
     * runCode from start to end with nothing else happening during the
     * await, the language table as `config` and the outcome of the request
     * as `fetched`; `request` is what was sent, if anything.
     */
    method RunCode(config: map<string, Runtime>, fetched: Fetched) returns (request: Option<PistonRequest>)
      modifies this
      ensures old(GetCode()) == "" ==>
                && request.None?
                && error == Some(EmptyCodeMessage)
                && output == old(output) && isRunning == old(isRunning)
                && executionResult == old(executionResult)
      ensures old(GetCode()) != "" ==>
                && request == (if language in config
                               then Some(PistonRequest(config[language].language, config[language].version, old(GetCode())))
                               else None)
                && executionResult == Some(Dispatched(config, language, old(GetCode()), fetched))
                && error == executionResult.value.error
                && output == executionResult.value.output
                && !isRunning
      ensures language == old(language) && theme == old(theme) && fontSize == old(fontSize)
      ensures editor == old(editor)
    {
      var flight := StartRun(config);
      if flight.Some? {
        request := Some(flight.value.request);
        FinishRun(flight.value, fetched);
      } else {
        request := None;
      }
    }
  }
}
