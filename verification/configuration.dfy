/**
 The search configuration and its validating constructor `Config::build`.
 The process arguments arrive as an iterator; the environment lookup of
 `IGNORE_CASE` is reduced to whether that variable is present.
 */
module Configuration {
  import opened Results

  /** `consulta` is the search text, `ruta` the file path, and `distinguir` selects case-sensitive search. */
  datatype Config = Config(consulta: string, ruta: string, distinguir: bool)

  /** The two ways building a configuration can fail. */
  datatype BuildError = MissingQuery | MissingPath
  {
    /** The message the program reports for this error: each one says that an argument was not given. */
    function Message(): (r: string)
      ensures |r| > 17 && r[..17] == "No se especificó "
    {
      match this
      case MissingQuery => "No se especificó el texto de búsqueda"
      case MissingPath => "No se especificó la ruta del archivo"
    }
  }

  /** The argument iterator: the arguments not consumed yet. */
  datatype Args = Args(remaining: seq<string>)
  {
    /** Consumes one argument, if any is left. */
    function Next(): (Option<string>, Args)
    {
      if |remaining| == 0 then (None, this) else (Some(remaining[0]), Args(remaining[1..]))
    }
  }

  /**
   Skips the program name, then takes the query and the path in that order,
   failing on the first one that is missing; `distinguir` is whether the
   `IGNORE_CASE` variable is set. Nothing checks that the strings are
   non-empty, and arguments after the path are never read.
   */
  function Build(args: seq<string>, ignoreCaseSet: bool): (r: Result<Config, BuildError>)
    ensures r == Failure(MissingQuery) <==> |args| <= 1
    ensures r == Failure(MissingPath) <==> |args| == 2
    ensures r.Success? <==> |args| >= 3
    ensures r.Success? ==> r.value == Config(args[1], args[2], ignoreCaseSet)
  {
    var (_, afterName) := Args(args).Next();
    var (query, afterQuery) := afterName.Next();
    match query
    case None => Failure(MissingQuery)
    case Some(consulta) =>
      var (path, _) := afterQuery.Next();
      match path
      case None => Failure(MissingPath)
      case Some(ruta) => Success(Config(consulta, ruta, ignoreCaseSet))
  }

  /** The two errors carry different messages, so the caller can tell which argument is missing. */
  lemma MessagesDistinct()
    ensures MissingQuery.Message() != MissingPath.Message()
  {
    assert MissingQuery.Message()[17] == 'e' && MissingPath.Message()[17] == 'l';
  }

  /** Arguments after the path do not change the outcome. */
  lemma {:induction false} BuildIgnoresExtraArguments(args: seq<string>, extra: seq<string>, ignoreCaseSet: bool)
    requires |args| >= 3
    ensures Build(args + extra, ignoreCaseSet) == Build(args, ignoreCaseSet)
  {
    assert (args + extra)[1] == args[1] && (args + extra)[2] == args[2];
  }
}
