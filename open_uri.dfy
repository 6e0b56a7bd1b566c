/** `runOpen`: a URI assembled from a scheme, a path and query options,
    handed to the platform's opener. */
module OpenUri {
  import opened Results
  import opened JsText

  /** `os.platform()`, as far as `runOpen` distinguishes it. */
  datatype Platform = Darwin | Win32 | OtherPlatform(name: string)

  /** Query options, in the order of the record's keys. */
  type Options = seq<(string, string)>

  /** The path as it enters the URI: one leading `/` dropped, an absent or
      empty path contributing nothing. */
  function UriPath(path: Option<string>): (p: string)
    ensures path.None? || path.value == [] ==> p == []
    ensures path.Some? && path.value != [] && path.value[0] == '/' ==> p == path.value[1..]
    ensures path.Some? && path.value != [] && path.value[0] != '/' ==> p == path.value
  {
    if path.None? || path.value == [] then []
    else if path.value[0] == '/' then path.value[1..]
    else path.value
  }

  /** The URI is built by successive appends. `encode` stands for
      `URLSearchParams(options).toString()`. */
  method BuildUri(schema: string, path: Option<string>, options: Option<Options>, encode: Options -> string)
    returns (uri: string)
    ensures StartsWith(uri, schema + "://")
    ensures uri == schema + "://" + UriPath(path) + QueryPart(options, encode)
  {
    uri := schema + "://";
    if path.Some? && path.value != [] {
      if path.value[0] == '/' {
        uri := uri + path.value[1..];
      } else {
        uri := uri + path.value;
      }
    }
    if options.Some? {
      uri := uri + "?" + encode(options.value);
    }
  }

  /** Exactly one leading slash is dropped: `x` and `/x` give the same URI,
      `//x` keeps one slash. */
  lemma OneSlashDropped(p: string)
    requires p != [] && p[0] != '/'
    ensures UriPath(Some("/" + p)) == UriPath(Some(p)) == p
    ensures UriPath(Some("/" + "/" + p)) == "/" + p
  {
    assert ("/" + p)[1..] == p;
    assert ("/" + "/" + p)[1..] == "/" + p;
  }

  /** `?` and the encoded options, when options are given. */
  function QueryPart(options: Option<Options>, encode: Options -> string): (q: string)
    ensures options.None? <==> q == []
    ensures options.Some? ==> q[0] == '?' && q[1..] == encode(options.value)
  {
    if options.Some? then "?" + encode(options.value) else []
  }

  /** The opener command for each platform; the URI is always its last
      argument. */
  function PlatformCommand(platform: Platform, uri: string): (cmd: seq<string>)
    ensures cmd != [] && cmd[|cmd| - 1] == uri
    ensures platform == Darwin ==> cmd == ["open", uri]
    ensures platform == Win32 ==> cmd == ["cmd", "/c", "start", "", uri]
    ensures platform.OtherPlatform? ==> cmd == ["xdg-open", uri]
  {
    match platform
    case Darwin => ["open", uri]
    case Win32 => ["cmd", "/c", "start", "", uri]
    case OtherPlatform(_) => ["xdg-open", uri]
  }

  const OPEN_FAILED: string := "Failed to open URL. Make sure app is installed and the schema is correct."

  /** `runOpen`. `spawn` reports the `exitCode` of the spawned opener as
      seen right after `Bun.spawn` returns: `None` while it is still
      running. Any exit status already known counts as a failure, a
      successful one included. */
  method RunOpen(schema: string, path: Option<string>, options: Option<Options>, platform: Platform,
                 encode: Options -> string, spawn: seq<string> -> Option<int>)
    returns (r: Result<bool, string>)
    ensures r.IsOk() <==> spawn(PlatformCommand(platform, schema + "://" + UriPath(path) + QueryPart(options, encode))).None?
    ensures r.IsOk() ==> r.value
    ensures r.IsErr() ==> r.error == OPEN_FAILED
  {
    var uri := BuildUri(schema, path, options, encode);
    var cmd: seq<string>;
    if platform == Darwin {
      cmd := ["open", uri];
    } else if platform == Win32 {
      cmd := ["cmd", "/c", "start", "", uri];
    } else {
      cmd := ["xdg-open", uri];
    }
    var exitCode := spawn(cmd);
    if exitCode.Some? {
      return Err(OPEN_FAILED);
    }
    r := Ok(true);
  }
}
