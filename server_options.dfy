/** Construction of the web server in package `http` (http/server.go):
    functional options are checked and applied in order, the first one
    that refuses its value ends the process, and unset settings take
    their defaults. */
module ServerOptions {
  import opened Results
  import opened Broadcast

  /** The settings the options have set so far. */
  datatype Options = Options(name: Option<string>, host: Option<string>, port: Option<int>)

  const NoOptions: Options := Options(None, None, None)

  /** The options `NewServer` accepts (each a closure over its value in
      the server). */
  datatype ServerOption = WithName(name: string) | WithHost(host: string) | WithPort(port: int)

  const MaxNameBytes: nat := 128
  const MinPort: int := 80
  const MaxPort: int := 65535
  const DefaultName: string := "goblin"
  const DefaultPort: int := 3000

  /** Bytes of one character in UTF-8. */
  function Utf8Width(c: char): nat {
    if c as int < 0x80 then 1
    else if c as int < 0x800 then 2
    else if c as int < 0x10000 then 3
    else 4
  }

  /** `len` of a Go string: its length in UTF-8 bytes. */
  function Utf8Length(s: string): (n: nat)
    ensures |s| <= n <= 4 * |s|
  {
    if |s| == 0 then 0 else Utf8Length(s[..|s| - 1]) + Utf8Width(s[|s| - 1])
  }

  /** What each option demands of its value: a name of 1 to 128 bytes, a
      port from 80 to 65535; any host. */
  predicate Accepts(o: ServerOption) {
    match o
    case WithName(name) => 0 < Utf8Length(name) <= MaxNameBytes
    case WithHost(_) => true
    case WithPort(port) => MinPort <= port <= MaxPort
  }

  /** The error an option returns for its value, if any. */
  function Rejection(o: ServerOption): (e: Option<string>)
    ensures e.None? <==> Accepts(o)
  {
    match o
    case WithName(name) =>
      if Utf8Length(name) > MaxNameBytes then Some("home name cannot be longer than 128 characters")
      else if Utf8Length(name) == 0 then Some("home name cannot be empty")
      else None
    case WithHost(_) => None
    case WithPort(port) =>
      if port < MinPort || port > MaxPort then Some("port must be between 80 and 65535") else None
  }

  /** Running one option on the settings: a refused value leaves an
      error; an accepted one is stored in its own field and in no other. */
  function Apply(o: ServerOption, opts: Options): (r: Result<Options, string>)
    ensures r.Ok? <==> Accepts(o)
    ensures r.Err? ==> Some(r.error) == Rejection(o)
    ensures r.Ok? && o.WithName? ==> r.value.name == Some(o.name) && r.value.host == opts.host && r.value.port == opts.port
    ensures r.Ok? && o.WithHost? ==> r.value.host == Some(o.host) && r.value.name == opts.name && r.value.port == opts.port
    ensures r.Ok? && o.WithPort? ==> r.value.port == Some(o.port) && r.value.name == opts.name && r.value.host == opts.host
  {
    match Rejection(o)
    case Some(e) => Err(e)
    case None =>
      match o
      case WithName(name) => Ok(opts.(name := Some(name)))
      case WithHost(host) => Ok(opts.(host := Some(host)))
      case WithPort(port) => Ok(opts.(port := Some(port)))
  }

  /** Options run in order; the first refusal stops the run. */
  function ApplyAll(opts: Options, options: seq<ServerOption>): Result<Options, string>
    decreases |options|
  {
    if |options| == 0 then Ok(opts)
    else match Apply(options[0], opts)
      case Err(e) => Err(e)
      case Ok(next) => ApplyAll(next, options[1..])
  }

  /** The last value an option of one kind gives, reading `pick` from
      each option. */
  function LastOf<T>(options: seq<ServerOption>, pick: ServerOption -> Option<T>): (r: Option<T>)
    ensures r.Some? ==> exists k :: (0 <= k < |options| && pick(options[k]) == r &&
      forall j :: k < j < |options| ==> pick(options[j]).None?)
    ensures r.None? ==> forall k :: 0 <= k < |options| ==> pick(options[k]).None?
    decreases |options|
  {
    if |options| == 0 then None
    else
      var n := |options| - 1;
      if pick(options[n]).Some? then pick(options[n]) else LastOf(options[..n], pick)
  }

  function PickName(o: ServerOption): Option<string> {
    if o.WithName? then Some(o.name) else None
  }

  function PickHost(o: ServerOption): Option<string> {
    if o.WithHost? then Some(o.host) else None
  }

  function PickPort(o: ServerOption): Option<int> {
    if o.WithPort? then Some(o.port) else None
  }

  /** `v` replaced by a later value when there is one. */
  function Override<T>(v: Option<T>, later: Option<T>): Option<T> {
    if later.Some? then later else v
  }

  /** The options succeed exactly when every one accepts its value. */
  lemma {:induction false} ApplyAllSucceeds(opts: Options, options: seq<ServerOption>)
    ensures ApplyAll(opts, options).Ok? <==> forall k :: 0 <= k < |options| ==> Accepts(options[k])
    decreases |options|
  {
    if |options| > 0 {
      var rest := options[1..];
      assert forall k :: 0 <= k < |rest| ==> rest[k] == options[k + 1];
      if Accepts(options[0]) {
        ApplyAllSucceeds(Apply(options[0], opts).value, rest);
      }
    }
  }

  /** When the options succeed, each setting holds the value of the last
      option of its kind, or what it held before when no option sets it. */
  lemma {:induction false} ApplyAllLastWins(opts: Options, options: seq<ServerOption>)
    requires ApplyAll(opts, options).Ok?
    ensures ApplyAll(opts, options).value == Options(
      Override(opts.name, LastOf(options, PickName)),
      Override(opts.host, LastOf(options, PickHost)),
      Override(opts.port, LastOf(options, PickPort)))
    decreases |options|
  {
    if |options| > 0 {
      var first := options[0];
      var rest := options[1..];
      var next := Apply(first, opts).value;
      assert ApplyAll(opts, options) == ApplyAll(next, rest);
      ApplyAllLastWins(next, rest);
      assert options == [first] + rest;
      LastOfCons(first, rest, PickName);
      LastOfCons(first, rest, PickHost);
      LastOfCons(first, rest, PickPort);
    }
  }

  /** LastOf read from the front: the rest's value, else the first's. */
  lemma {:induction false} LastOfCons<T>(first: ServerOption, rest: seq<ServerOption>, pick: ServerOption -> Option<T>)
    ensures LastOf([first] + rest, pick) == Override(pick(first), LastOf(rest, pick))
    decreases |rest|
  {
    var all := [first] + rest;
    if |rest| > 0 {
      var n := |rest| - 1;
      assert all[..|all| - 1] == [first] + rest[..n];
      assert all[|all| - 1] == rest[n];
      LastOfCons(first, rest[..n], pick);
    } else {
      assert all[..0] == [];
    }
  }

  /** A refusal names the first option that refuses its value. */
  lemma {:induction false} ApplyAllFirstError(opts: Options, options: seq<ServerOption>)
    ensures ApplyAll(opts, options).Err? ==> exists k :: (0 <= k < |options| &&
      (forall j :: 0 <= j < k ==> Accepts(options[j])) &&
      Some(ApplyAll(opts, options).error) == Rejection(options[k]))
    decreases |options|
  {
    if |options| > 0 && Accepts(options[0]) {
      var rest := options[1..];
      ApplyAllFirstError(Apply(options[0], opts).value, rest);
      if ApplyAll(opts, options).Err? {
        var k :| 0 <= k < |rest| && (forall j :: 0 <= j < k ==> Accepts(rest[j])) &&
          Some(ApplyAll(opts, options).error) == Rejection(rest[k]);
        assert forall j :: 1 <= j < k + 1 ==> options[j] == rest[j - 1];
        assert options[k + 1] == rest[k];
      }
    }
  }

  /** The settings the server starts with. */
  datatype Settings = Settings(name: string, host: string, port: int)

  /** Default resolution as `NewServer` writes it: with no host option the
      host stays empty and it is the NAME that becomes "localhost". */
  function ResolveAsWritten(opts: Options): (s: Settings)
    ensures s.port == Resolve(opts).port
    ensures opts.host.Some? ==> s == Resolve(opts)
    ensures opts.host.None? ==> s.name == "localhost" && s.host == ""
  {
    var name := if opts.name.Some? then opts.name.value else DefaultName;
    var port := if opts.port.Some? then opts.port.value else DefaultPort;
    if opts.host.Some? then Settings(name, opts.host.value, port)
    else Settings("localhost", "", port)
  }

  /** As written, a home name set by option is lost whenever no host is
      given, and the host is left empty. */
  lemma AsWrittenLosesName()
    ensures ResolveAsWritten(ApplyAll(NoOptions, [WithName("Home")]).value) == Settings("localhost", "", DefaultPort)
  {
    var r := ApplyAll(NoOptions, [WithName("Home")]);
    assert r == ApplyAll(Options(Some("Home"), None, None), []);
  }

  const DefaultHost: string := "localhost"

  /** Default resolution as evidently intended: each setting falls back to
      its own default, the host to "localhost". */
  function Resolve(opts: Options): (s: Settings)
    ensures opts.name.Some? ==> s.name == opts.name.value
    ensures opts.name.None? ==> s.name == DefaultName
    ensures opts.host.Some? ==> s.host == opts.host.value
    ensures opts.host.None? ==> s.host == DefaultHost
    ensures opts.port.Some? ==> s.port == opts.port.value
    ensures opts.port.None? ==> s.port == DefaultPort
  {
    Settings(
      if opts.name.Some? then opts.name.value else DefaultName,
      if opts.host.Some? then opts.host.value else DefaultHost,
      if opts.port.Some? then opts.port.value else DefaultPort)
  }

  /** The name no longer depends on whether a host was given. */
  lemma ResolveNameIndependentOfHost(opts: Options, host: Option<string>)
    ensures Resolve(opts).name == Resolve(opts.(host := host)).name
  {
  }

  /** The settings of a server built from `options`, or the error the first
      refused option reports (where the server calls log.Fatal). */
  function Configure(options: seq<ServerOption>): Result<Settings, string> {
    match ApplyAll(NoOptions, options)
    case Err(e) => Err(e)
    case Ok(opts) => Ok(Resolve(opts))
  }

  /** With accepted options, a server's port is always in range, and its
      name is non-empty and at most 128 bytes. */
  lemma ConfiguredSettingsValid(options: seq<ServerOption>)
    requires Configure(options).Ok?
    ensures var s := Configure(options).value;
      MinPort <= s.port <= MaxPort && 0 < Utf8Length(s.name) <= MaxNameBytes
  {
    ApplyAllSucceeds(NoOptions, options);
    ApplyAllLastWins(NoOptions, options);
    var opts := ApplyAll(NoOptions, options).value;
    var port := LastOf(options, PickPort);
    if port.Some? {
      var k :| 0 <= k < |options| && PickPort(options[k]) == port && forall j :: k < j < |options| ==> PickPort(options[j]).None?;
      assert Accepts(options[k]);
    }
    var name := LastOf(options, PickName);
    if name.Some? {
      var k :| 0 <= k < |options| && PickName(options[k]) == name && forall j :: k < j < |options| ==> PickName(options[j]).None?;
      assert Accepts(options[k]);
    }
  }

  /** NewServer: run the options in order (stopping at the first refusal),
      resolve the defaults, and start with no subscribers. */
  method NewServer(options: seq<ServerOption>, templates: TemplateHandler) returns (r: Result<Server, string>)
    ensures Configure(options).Err? ==> r == Err(Configure(options).error)
    ensures Configure(options).Ok? ==> (r.Ok? && fresh(r.value) &&
      Settings(r.value.homeName, r.value.host, r.value.port) == Configure(options).value &&
      r.value.templates == templates && r.value.subscribers == {})
  {
    var opts := NoOptions;
    var i := 0;
    while i < |options|
      invariant 0 <= i <= |options|
      invariant ApplyAll(NoOptions, options) == ApplyAll(opts, options[i..])
    {
      assert options[i..][1..] == options[i + 1..];
      var next := Apply(options[i], opts);
      if next.Err? {
        return Err(next.error);
      }
      opts := next.value;
      i := i + 1;
    }
    var name := if opts.name.Some? then opts.name.value else DefaultName;
    var host := if opts.host.Some? then opts.host.value else DefaultHost;
    var port := if opts.port.Some? then opts.port.value else DefaultPort;
    var server := new Server(host, port, name, templates);
    r := Ok(server);
  }
}
