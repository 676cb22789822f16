/** Shared value types of the chat and the video tool (types.ts), plus the
    Option/Result wrappers that stand for JavaScript's null and thrown errors. */
module Types {

  /** A value that may be absent (`null`/`undefined` in the source). */
  datatype Option<+T> = None | Some(value: T)

  /** The outcome of a call that may throw; an `Error` carries only its message. */
  datatype Result<+T> = Ok(value: T) | Err(message: string)

  /** Who wrote a message. */
  datatype Role = USER | MODEL

  /** One chat bubble. `isError` is optional in the source; absent reads as false. */
  datatype Message = Message(id: string, role: Role, text: string, timestamp: int, isError: bool)

  /** The two video formats offered. */
  datatype AspectRatio = LANDSCAPE | PORTRAIT {
    /** The enum's string value, as sent to the video model. */
    function Value(): string {
      match this
      case LANDSCAPE => "16:9"
      case PORTRAIT => "9:16"
    }
  }

  /** The inverse of `AspectRatio.Value`: the string sent to the service names exactly one format. */
  function ParseAspectRatio(s: string): (r: Option<AspectRatio>)
    ensures r.Some? ==> r.value.Value() == s
    ensures forall a: AspectRatio :: s == a.Value() ==> r == Some(a)
  {
    if s == "16:9" then Some(LANDSCAPE)
    else if s == "9:16" then Some(PORTRAIT)
    else None
  }

  /** A user-selected browser file: only its name and declared MIME type matter here. */
  datatype File = File(name: string, mimeType: string)
}
