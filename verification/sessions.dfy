/** The parsed contents of one chat-history file (`RawSessionData` in
    src/collector.ts) and the parts of its messages that the statistics
    read. Dates are reduced to what the system does with them: the start
    time to its calendar year, `lastUpdated` to a comparable instant, and a
    message timestamp to its local day number. */
module Sessions {
  import opened Wrappers

  /** `msg.type`: only "user" and "gemini" are told apart. */
  datatype Role = User | Gemini | Other

  /** One of the JSON values `file_path`, `path` or `dir_path` of a tool
      call's arguments: missing, a string, or some other JSON value, which
      is truthy or falsy (`0`, `false` and `null` are falsy). */
  datatype ArgValue = Absent | Text(s: string) | NonText(truthy: bool)

  /** A tool call; a call without `args` has all three arguments absent. */
  datatype ToolCall = ToolCall(filePath: ArgValue, path: ArgValue, dirPath: ArgValue)

  /** `msg.tokens`: each count may be missing. */
  datatype TokenCounts = TokenCounts(
    input: Option<nat>, output: Option<nat>, cached: Option<nat>,
    thoughts: Option<nat>, total: Option<nat>)

  /** A chat message. `day` is the local day number of `msg.timestamp`
      (days since 1970-01-01); a missing `toolCalls` array is the empty
      one, which the statistics treat alike. */
  datatype Message = Message(
    role: Role, day: int, model: Option<string>,
    tokens: Option<TokenCounts>, toolCalls: seq<ToolCall>)

  /** A parsed session file. `startYear` is the local year of `startTime`
      and `lastUpdated` the instant of `lastUpdated` in milliseconds;
      `None` stands for an unparsable date (`NaN`). */
  datatype Snapshot = Snapshot(
    sessionId: string, projectHash: string,
    startYear: Option<int>, lastUpdated: Option<int>,
    messages: seq<Message>)
}
