/** Command-line configuration choice (`BlogApp.selectConfigFromArgs` and
    `mapArgToConfig`): the first argument that looks like a flag picks one of
    three configuration files; everything else falls back to the REST one. */
module AppConfig {
  import opened Wrappers
  import opened Strings

  const DefaultConfig: string := "blog-rest.yaml"
  const RestConfig: string := "blog-rest.yaml"
  const McpStdioConfig: string := "blog-mcp-stdio.yaml"
  const McpHttpConfig: string := "blog-mcp-streamable-http.yaml"

  predicate IsConfigFile(name: string) {
    name == RestConfig || name == McpStdioConfig || name == McpHttpConfig
  }

  /** `arg.startsWith("--")`. */
  predicate IsFlag(arg: string) {
    StartsWith(arg, "--")
  }

  /** `mapArgToConfig`: the three recognised flags, and the default for any other. */
  function MapArgToConfig(arg: string): (r: string)
    ensures IsConfigFile(r)
    ensures r == McpStdioConfig <==> arg == "--mcp-stdio"
    ensures r == McpHttpConfig <==> arg == "--mcp-http"
    ensures r == DefaultConfig <==> arg != "--mcp-stdio" && arg != "--mcp-http"
  {
    if arg == "--rest" then RestConfig
    else if arg == "--mcp-stdio" then McpStdioConfig
    else if arg == "--mcp-http" then McpHttpConfig
    else DefaultConfig
  }

  /** Position of the first flag-like argument, if any. */
  function FirstFlagIndex(args: seq<string>): (r: Option<nat>)
    ensures r.Some? ==> r.value < |args| && IsFlag(args[r.value])
    ensures r.Some? ==> forall j :: 0 <= j < r.value ==> !IsFlag(args[j])
    ensures r.None? <==> forall j :: 0 <= j < |args| ==> !IsFlag(args[j])
  {
    if |args| == 0 then None
    else if IsFlag(args[0]) then Some(0)
    else
      match FirstFlagIndex(args[1..])
      case Some(i) =>
        assert forall j :: 1 <= j < i + 1 ==> args[j] == args[1..][j - 1];
        Some(i + 1)
      case None =>
        assert forall j :: 1 <= j < |args| ==> args[j] == args[1..][j - 1];
        None
  }

  /** `selectConfigFromArgs`: no arguments, or no flag among them, selects the
      default; otherwise the first flag alone decides. */
  function SelectConfigFromArgs(args: seq<string>): (r: string)
    ensures IsConfigFile(r)
    ensures |args| == 0 ==> r == DefaultConfig
    ensures (forall j :: 0 <= j < |args| ==> !IsFlag(args[j])) ==> r == DefaultConfig
    ensures forall i :: 0 <= i < |args| && IsFlag(args[i]) && (forall j :: 0 <= j < i ==> !IsFlag(args[j]))
                        ==> r == MapArgToConfig(args[i])
  {
    if |args| == 0 then DefaultConfig
    else
      match FirstFlagIndex(args)
      case Some(i) =>
        assert forall k :: 0 <= k < |args| && IsFlag(args[k]) && (forall j :: 0 <= j < k ==> !IsFlag(args[j])) ==> k == i;
        MapArgToConfig(args[i])
      case None => DefaultConfig
  }

  /** The flag-like arguments in order: the stream's `filter` step. */
  function Flags(args: seq<string>): (fs: seq<string>)
    ensures forall i :: 0 <= i < |fs| ==> IsFlag(fs[i])
  {
    if |args| == 0 then []
    else if IsFlag(args[0]) then [args[0]] + Flags(args[1..])
    else Flags(args[1..])
  }

  /** The stream pipeline `filter(startsWith("--")).findFirst().map(mapArgToConfig).orElse(DEFAULT)`
      written as a filter, and the scan above, choose the same file. */
  lemma {:induction false} SelectMatchesStream(args: seq<string>)
    ensures SelectConfigFromArgs(args) ==
            (if |Flags(args)| == 0 then DefaultConfig else MapArgToConfig(Flags(args)[0]))
  {
    if |args| > 0 && !IsFlag(args[0]) {
      SelectMatchesStream(args[1..]);
      assert forall j :: 1 <= j < |args| ==> args[j] == args[1..][j - 1];
      if FirstFlagIndex(args[1..]).Some? {
        var i := FirstFlagIndex(args[1..]).value;
        assert IsFlag(args[i + 1]);
        assert forall j :: 0 <= j < i + 1 ==> !IsFlag(args[j]);
      }
    }
  }

  /** Appending arguments after a flag never changes the choice: later flags
      are ignored even when they are recognised ones. */
  lemma LaterArgumentsIgnored(args: seq<string>, more: seq<string>)
    requires exists i :: 0 <= i < |args| && IsFlag(args[i])
    ensures SelectConfigFromArgs(args + more) == SelectConfigFromArgs(args)
  {
    var i := FirstFlagIndex(args).value;
    var all := args + more;
    assert all[i] == args[i];
    assert forall j :: 0 <= j < i ==> all[j] == args[j];
  }
}
