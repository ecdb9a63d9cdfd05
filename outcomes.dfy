/** The ways a run of the thumbnail generator ends early, and the result type
    that carries either a value or one of them. */
module Outcomes {

  datatype Option<+T> = None | Some(value: T)

  /** One kind per `exit(...)` of the generator. */
  datatype Error =
    | InputUnreadable         // neither a readable file nor a reachable video URL
    | OutputNotWritable       // the output directory cannot be written
    | DirectoryCreateFailed   // `thumbnails/` is missing and cannot be made
    | ToolUnavailable         // the probe printed no ffmpeg version banner
    | NoFramesFound           // no file matches `{name}-dddd.jpg` after extraction

  datatype Result<+T> = Success(value: T) | Failure(error: Error)

  /** The sysexits code each error ends the process with. */
  function ExitCode(e: Error): (code: int)
    ensures code in {64, 66, 69, 73}
    ensures code == 66 <==> e == InputUnreadable || e == NoFramesFound
    ensures code == 73 <==> e == OutputNotWritable || e == DirectoryCreateFailed
    ensures code == 69 <==> e == ToolUnavailable
  {
    match e
    case InputUnreadable => 66
    case OutputNotWritable => 73
    case DirectoryCreateFailed => 73
    case ToolUnavailable => 69
    case NoFramesFound => 66
  }
}
