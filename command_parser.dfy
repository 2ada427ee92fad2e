/**
 * `parseAndExecuteCommand`: splits the palette input into a command word
 * and its arguments and dispatches on the word. The hash, Base64, URL and
 * time functions it calls are parameters that may fail with a message.
 */
module CommandParser {
  import opened JsStrings
  import opened Wrappers
  import opened Commands

  /** The result record: `output` on success, `error` on failure. */
  datatype CommandResult = CommandResult(success: bool, output: Option<string>, error: Option<string>)

  function Succeeded(output: string): (r: CommandResult)
    ensures r.success && r.output == Some(output) && r.error.None?
  {
    CommandResult(true, Some(output), None)
  }

  function Failed(error: string): (r: CommandResult)
    ensures !r.success && r.output.None? && r.error == Some(error)
  {
    CommandResult(false, None, Some(error))
  }

  /** The functions the commands call; `Failure` carries the thrown error's message. */
  datatype Handlers = Handlers(
    md5: string -> Result<string, string>,
    sha1: string -> Result<string, string>,
    sha256: string -> Result<string, string>,
    sha512: string -> Result<string, string>,
    base64Encode: string -> Result<string, string>,
    base64Decode: string -> Result<string, string>,
    urlEncode: string -> Result<string, string>,
    urlDecode: string -> Result<string, string>,
    timestampToLocalString: string -> Result<string, string>,
    dateStringToTimestamp: string -> Result<int, string>)

  /** The commands of the `switch`. */
  datatype Command = Md5 | Sha1 | Sha256 | Sha512 | Base64 | Base64Decode | UrlEncode | UrlDecode | Timestamp | Date

  /** The `case` labels, aliases included. */
  function Route(word: string): Option<Command> {
    if word == "md5" then Some(Md5)
    else if word == "sha1" then Some(Sha1)
    else if word == "sha256" then Some(Sha256)
    else if word == "sha512" then Some(Sha512)
    else if word == "base64" || word == "b64" then Some(Base64)
    else if word == "base64d" || word == "b64d" then Some(Base64Decode)
    else if word == "urlencode" || word == "url" || word == "ue" then Some(UrlEncode)
    else if word == "urldecode" || word == "ud" then Some(UrlDecode)
    else if word == "timestamp" || word == "ts" then Some(Timestamp)
    else if word == "date" then Some(Date)
    else None
  }

  /** The message for a command given without arguments. */
  function MissingArgument(c: Command): (r: string)
    ensures r != []
  {
    match c
    case Md5 => "请输入要计算 MD5 的字符串"
    case Sha1 => "请输入要计算 SHA1 的字符串"
    case Sha256 => "请输入要计算 SHA256 的字符串"
    case Sha512 => "请输入要计算 SHA512 的字符串"
    case Base64 => "请输入要编码的字符串"
    case Base64Decode => "请输入要解码的 Base64 字符串"
    case UrlEncode => "请输入要编码的 URL"
    case UrlDecode => "请输入要解码的 URL"
    case Timestamp => "请输入时间戳"
    case Date => "请输入日期时间字符串"
  }

  const EmptyInputMessage := "请输入命令"
  const FallbackMessage := "执行命令时出错"

  function UnknownCommandMessage(word: string): (r: string)
    ensures StartsWith(r, "未知命令: ")
  {
    "未知命令: " + word + "。支持的命令: md5, sha1, sha256, sha512, base64, base64d, urlencode, urldecode, timestamp, date"
  }

  /** `e.message || '执行命令时出错'`: an empty message falls back. */
  function CaughtMessage(message: string): (r: string)
    ensures r != []
    ensures message != [] ==> r == message
  {
    if message == [] then FallbackMessage else message
  }

  /** The command word and the arguments of an input that is not blank. */
  datatype Tokens = Tokens(command: string, args: string)

  /** `parts = input.trim().split(/\s+/)`: the first part lower-cased, the rest joined by single spaces. */
  function Tokenize(input: string): (t: Tokens)
    requires Trim(input) != []
    ensures t.command != []
    ensures forall i :: 0 <= i < |t.command| ==> !IsWhitespace(t.command[i]) && !('A' <= t.command[i] <= 'Z')
  {
    var trimmed := Trim(input);
    var parts := WhitespaceSplit(trimmed);
    WhitespaceSplitFirstWord(trimmed);
    LowerWord(parts[0]);
    Tokens(Lower(parts[0]), Join(parts[1..], ' '))
  }

  /** The arguments split at single spaces give back the remaining tokens; no remaining token means no arguments. */
  lemma TokenizeArgs(input: string)
    requires Trim(input) != []
    ensures var parts := WhitespaceSplit(Trim(input));
      (|parts| == 1 ==> Tokenize(input).args == [])
      && (|parts| > 1 ==> Split(Tokenize(input).args, ' ') == parts[1..])
  {
    var parts := WhitespaceSplit(Trim(input));
    if |parts| > 1 {
      var rest := parts[1..];
      forall i | 0 <= i < |rest| ensures ' ' !in rest[i] {
        assert forall j :: 0 <= j < |rest[i]| ==> !IsWhitespace(rest[i][j]);
      }
      SplitJoin(rest, ' ');
    }
  }

  /** Runs a handler: its value becomes the output, a thrown error the failure. */
  function Run(r: Result<string, string>): (c: CommandResult)
    ensures c.success <==> r.Success?
    ensures c.success ==> c == Succeeded(r.value)
    ensures !c.success ==> c == Failed(CaughtMessage(r.error))
  {
    match r
    case Success(v) => Succeeded(v)
    case Failure(m) => Failed(CaughtMessage(m))
  }

  /** Calls the handler of `c` on `args`: its value is the output, its thrown
      message (or the fallback) the error; the date handler's number is printed in decimal. */
  function Dispatch(c: Command, args: string, h: Handlers): (r: CommandResult)
    ensures r.success <==> r.output.Some?
    ensures r.success <==> r.error.None?
    ensures !r.success ==> r.error.value != []
    ensures c == Md5 ==> r == Run(h.md5(args))
    ensures c == Sha1 ==> r == Run(h.sha1(args))
    ensures c == Sha256 ==> r == Run(h.sha256(args))
    ensures c == Sha512 ==> r == Run(h.sha512(args))
    ensures c == Base64 ==> r == Run(h.base64Encode(args))
    ensures c == Base64Decode ==> r == Run(h.base64Decode(args))
    ensures c == UrlEncode ==> r == Run(h.urlEncode(args))
    ensures c == UrlDecode ==> r == Run(h.urlDecode(args))
    ensures c == Timestamp ==> r == Run(h.timestampToLocalString(args))
    ensures c == Date && h.dateStringToTimestamp(args).Success? ==>
      r == Succeeded(IntToDecimal(h.dateStringToTimestamp(args).value))
    ensures c == Date && h.dateStringToTimestamp(args).Failure? ==>
      r == Failed(CaughtMessage(h.dateStringToTimestamp(args).error))
  {
    match c
    case Md5 => Run(h.md5(args))
    case Sha1 => Run(h.sha1(args))
    case Sha256 => Run(h.sha256(args))
    case Sha512 => Run(h.sha512(args))
    case Base64 => Run(h.base64Encode(args))
    case Base64Decode => Run(h.base64Decode(args))
    case UrlEncode => Run(h.urlEncode(args))
    case UrlDecode => Run(h.urlDecode(args))
    case Timestamp => Run(h.timestampToLocalString(args))
    case Date =>
      match h.dateStringToTimestamp(args)
      case Success(ms) => Succeeded(IntToDecimal(ms))
      case Failure(m) => Failed(CaughtMessage(m))
  }

  /** `parseAndExecuteCommand(input)`. */
  function ParseAndExecuteCommand(input: string, h: Handlers): (r: CommandResult)
    ensures r.success <==> r.output.Some?
    ensures r.success <==> r.error.None?
    ensures Trim(input) == [] ==> r == Failed(EmptyInputMessage)
    ensures !r.success ==> r.error.value != []
  {
    if input == [] || Trim(input) == [] then Failed(EmptyInputMessage)
    else
      var t := Tokenize(input);
      match Route(t.command)
      case None => Failed(UnknownCommandMessage(t.command))
      case Some(c) =>
        if t.args == [] then Failed(MissingArgument(c)) else Dispatch(c, t.args, h)
  }

  /** A recognised command without arguments fails with its own message, whatever the handlers do. */
  lemma MissingArgumentNeverDispatches(input: string, h1: Handlers, h2: Handlers)
    requires Trim(input) != [] && Route(Tokenize(input).command).Some? && Tokenize(input).args == []
    ensures ParseAndExecuteCommand(input, h1) == ParseAndExecuteCommand(input, h2)
      == Failed(MissingArgument(Route(Tokenize(input).command).value))
  {
  }

  /** An unrecognised command word fails with the list of supported commands. */
  lemma UnknownCommandFails(input: string, h: Handlers)
    requires Trim(input) != [] && Route(Tokenize(input).command).None?
    ensures ParseAndExecuteCommand(input, h) == Failed(UnknownCommandMessage(Tokenize(input).command))
    ensures StartsWith(ParseAndExecuteCommand(input, h).error.value, "未知命令: ")
  {
  }

  /** With arguments, the result is the handler's: its value on success, its message (or the fallback) on failure. */
  lemma HandlerDecides(input: string, h: Handlers)
    requires Trim(input) != [] && Route(Tokenize(input).command).Some? && Tokenize(input).args != []
    ensures var t := Tokenize(input);
      ParseAndExecuteCommand(input, h) == Dispatch(Route(t.command).value, t.args, h)
    ensures var t := Tokenize(input);
      Route(t.command) == Some(Timestamp) ==> ParseAndExecuteCommand(input, h) == Run(h.timestampToLocalString(t.args))
    ensures var t := Tokenize(input);
      Route(t.command) == Some(Md5) ==>
        ParseAndExecuteCommand(input, h) == (match h.md5(t.args)
          case Success(v) => Succeeded(v)
          case Failure(m) => Failed(if m == [] then FallbackMessage else m))
  {
  }

  /** Every alias reaches the handler of its command. */
  lemma AliasesShareHandler(i: nat, alias: string)
    requires i < |AvailableCommands| && alias in AvailableCommands[i].aliases
    ensures Route(alias) == Route(AvailableCommands[i].name) && Route(alias).Some?
  {
  }

  /** The recognised command words are exactly the names and aliases of the command table. */
  lemma RecognisedWords(word: string)
    ensures Route(word).Some? <==> word in KeywordsOf(AvailableCommands)
  {
    TableKeywords();
    RouteWords(word);
  }

  /** The `case` labels, listed. */
  lemma RouteWords(word: string)
    ensures Route(word).Some? <==> word in ["md5", "sha1", "sha256", "sha512", "base64", "b64",
      "base64d", "b64d", "urlencode", "url", "ue", "urldecode", "ud", "timestamp", "ts", "date"]
  {
  }
}
