/** Shared vocabulary: optional values, results, and the ways a run of the
    update downloader can end abnormally. */
module Basics {

  /** A value that may be absent (Python's `None`). */
  datatype Option<+T> = None | Some(value: T)

  /** The outcome of a step that may abort the run. */
  datatype Result<+T, +E> = Ok(value: T) | Err(error: E)

  /** The ways the tool stops early that the model covers. Each constructor
      names the point in the program that raises or calls `exit`. */
  datatype Fault =
    | UnknownId(shown: string)        // validate_id: unknown prefix or non-decimal rest
    | InvalidArgument                 // parse_game_ids: neither games.yml nor 9 characters
    | UnknownPlatform(name: string)   // verify_platform: none of the known platforms
    | FeedUnreachable(url: string)    // get_parse: the request itself raised
    | MalformedXml                    // ElementTree.fromstring rejected the body
    | MissingTag                      // the manifest root has no `tag` child
    | BadSize                         // float() of an absent or non-numeric size
    | MissingTitleText                // a `paramsfo` element without TITLE text
    | UnboundVariable                 // Game(...) read a loop variable never assigned
    | MissingId                       // a game without titleid reached path building
    | MissingUrl                      // a game without url reached filename extraction
    | FileExists(path: string)        // mkdir on a path that is an existing file
    | IsADirectory(path: string)      // open(..., "wb") on a directory
    | TransferFailed(url: string)     // the download request raised (raise_for_status)
    | StreamBroken(url: string)       // the body stream failed after the file was opened
}
