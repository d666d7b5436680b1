/** The error taxonomy of `types/errors`: each kind's `Error()` is a fixed
    prefix followed by its message. `Plain` stands for every other Go `error`
    (driver failures, `errors.New`, `*strconv.NumError`), whose text is its own. */
module Errors {
  import opened Basics

  const InvalidParameterPrefix := "Invalid Parameter :: "
  const NotFoundPrefix := "Not found error :: "
  const ConnectionPrefix := "Connection error :: "
  const InternalServerPrefix := "Internal server error :: "
  const BadRequestPrefix := "Bad request error :: "
  const TilePrefix := "Tile operation error "

  /** `raw` is the wrapped `RawError` (None for a nil error), kept only for diagnostics. */
  datatype AppError =
    | InvalidParameters(err: string)
    | NotFound(err: string, raw: Option<string>)
    | Connection(err: string, raw: Option<string>)
    | InternalServer(err: string, raw: Option<string>)
    | BadRequest(err: string, raw: Option<string>)
    | Tile(title: string, err: string)
    | Plain(text: string)
  {
    /** The kinds whose message is a prefix followed by `err`. */
    predicate Prefixed() {
      !Tile? && !Plain?
    }

    function Prefix(): string
      requires Prefixed()
    {
      match this
      case InvalidParameters(_) => InvalidParameterPrefix
      case NotFound(_, _) => NotFoundPrefix
      case Connection(_, _) => ConnectionPrefix
      case InternalServer(_, _) => InternalServerPrefix
      case BadRequest(_, _) => BadRequestPrefix
    }

    /** `Error()`: a prefixed kind's message is its prefix followed by `Err`,
        so dropping the prefix gives `Err` back; a tile error's message starts
        with the tile prefix and ends with `Err`; any other error shows its own text. */
    function Message(): (m: string)
      ensures Prefixed() ==> |m| == |Prefix()| + |err| && Prefix() <= m && m[|Prefix()|..] == err
      ensures Tile? ==> TilePrefix <= m && |err| <= |m| && m[|m| - |err|..] == err
      ensures Plain? ==> m == text
    {
      match this
      case InvalidParameters(err) => InvalidParameterPrefix + err
      case NotFound(err, _) => NotFoundPrefix + err
      case Connection(err, _) => ConnectionPrefix + err
      case InternalServer(err, _) => InternalServerPrefix + err
      case BadRequest(err, _) => BadRequestPrefix + err
      case Tile(title, err) => TilePrefix + title + ":: " + err
      case Plain(text) => text
    }
  }

  /** `RawError` never shows in a message. */
  lemma RawErrorIgnored(err: string, r1: Option<string>, r2: Option<string>)
    ensures NotFound(err, r1).Message() == NotFound(err, r2).Message()
    ensures Connection(err, r1).Message() == Connection(err, r2).Message()
    ensures InternalServer(err, r1).Message() == InternalServer(err, r2).Message()
    ensures BadRequest(err, r1).Message() == BadRequest(err, r2).Message()
  {
  }

  /** The five prefixes are pairwise incompatible, so a prefixed message names
      its kind and its `Err` unambiguously. */
  lemma MessageDeterminesError(e1: AppError, e2: AppError)
    requires e1.Prefixed() && e2.Prefixed()
    requires e1.Message() == e2.Message()
    ensures e1.Prefix() == e2.Prefix()
    ensures e1.err == e2.err
  {
    var m := e1.Message();
    assert m[0] == e1.Prefix()[0] == e2.Prefix()[0];
    assert m[2] == e1.Prefix()[2] == e2.Prefix()[2];
  }

  /** `TileError.Error()` reads `Tile operation error <title>:: <err>`: the
      prefix, then `Title`, then `::` with no space before it, then `Err`. */
  lemma TileMessageShape(title: string, err: string)
    ensures TilePrefix <= Tile(title, err).Message()
    ensures Tile(title, err).Message()[21..21 + |title|] == title
    ensures |Tile(title, err).Message()| == 24 + |title| + |err|
    ensures Tile(title, err).Message()[24 + |title|..] == err
    ensures Tile(title, err).Message()[21 + |title|..24 + |title|] == ":: "
  {
  }
}
