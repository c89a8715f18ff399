/**
 * Mapping external servers to upstream configs and back (src/import/transform/mapper.ts,
 * src/import/merge/index.ts:109-194, 283-311).
 */
module ServerMapping {
  import opened Common
  import opened EnvReferences

  type Env = map<string, string>

  datatype ExternalAuth = Switch(on: bool) | OAuth(callbackPort: Option<int>, clientName: Option<string>)

  datatype External = External(
    name: string,
    command: Option<string>,
    args: Option<seq<string>>,
    env: Option<Env>,
    cwd: Option<string>,
    url: Option<string>,
    httpUrl: Option<string>,
    headers: Option<Env>,
    auth: Option<ExternalAuth>,
    disabled: Option<bool>)

  datatype Auth = Enabled(on: bool) | Client(callbackPort: int, clientName: string)

  datatype Transport =
    | Stdio(command: string, args: seq<string>, cwd: Option<string>)
    | Sse(url: string, headers: Env, auth: Option<Auth>)

  datatype Upstream = Upstream(enabled: bool, labelText: Option<string>, env: Env, transport: Transport)

  const DEFAULT_PORT := 8089

  const DEFAULT_CLIENT := "MCP\U{00B2}"

  function OrElse<T>(a: Option<T>, b: T): T {
    match a case Some(value) => value case None => b
  }

  function Nullish<T>(a: Option<T>, b: Option<T>): Option<T> {
    if a.Some? then a else b
  }

  // ------------------------------------------------------------------ mapping

  function NormalizedVars(env: Env): Env {
    map k | k in env :: NormalizeEnvValue(env[k])
  }

  method NormalizeEnvVars(env: Env) returns (result: Env)
    ensures result == NormalizedVars(env)
  {
    result := map[];
    var entries := env.Keys;
    while entries != {}
      invariant entries <= env.Keys && result.Keys == env.Keys - entries
      invariant forall k :: k in result ==> result[k] == NormalizeEnvValue(env[k])
      decreases entries
    {
      var key :| key in entries;
      result := result[key := NormalizeEnvValue(env[key])];
      entries := entries - {key};
    }
  }

  function MapAuth(auth: ExternalAuth): Auth {
    match auth
    case Switch(on) => Enabled(on)
    case OAuth(port, client) => Client(OrElse(port, DEFAULT_PORT), OrElse(client, DEFAULT_CLIENT))
  }

  function MapToStdio(server: External): Option<Upstream> {
    if server.command == None || server.command.value == "" then None
    else
      Some(Upstream(!OrElse(server.disabled, false), Some(server.name), NormalizedVars(OrElse(server.env, map[])),
                    Stdio(server.command.value, OrElse(server.args, []),
                          if server.cwd.Some? && server.cwd.value != "" then server.cwd else None)))
  }

  function MapToSse(server: External): Option<Upstream> {
    var url := Nullish(server.url, server.httpUrl);
    if url == None || url.value == "" then None
    else
      Some(Upstream(!OrElse(server.disabled, false), Some(server.name), NormalizedVars(OrElse(server.env, map[])),
                    Sse(url.value, NormalizedVars(OrElse(server.headers, map[])),
                        match server.auth case Some(auth) => Some(MapAuth(auth)) case None => None)))
  }

  /** A URL decides for SSE, even an empty one. */
  function MapServer(server: External): Option<Upstream> {
    if server.url.Some? || server.httpUrl.Some? then MapToSse(server) else MapToStdio(server)
  }

  function ToExternal(name: string, config: Upstream): External {
    var env := if |config.env| > 0 then Some(config.env) else None;
    match config.transport
    case Stdio(command, args, cwd) =>
      External(name, Some(command), Some(args), env, cwd, None, None, None, None, Some(!config.enabled))
    case Sse(url, headers, auth) =>
      External(name, None, None, env, None, Some(url), None, Some(headers),
               match auth case Some(a) => Some(BackAuth(a)) case None => None, Some(!config.enabled))
  }

  function BackAuth(auth: Auth): ExternalAuth {
    match auth
    case Enabled(on) => Switch(on)
    case Client(port, client) => OAuth(Some(port), Some(client))
  }

  // ------------------------------------------------------------------ equality

  predicate SameEntries(a: Env, b: Env) {
    a.Keys == b.Keys && forall k :: k in a ==> a[k] == b[k]
  }

  predicate SameAuth(a: Option<Auth>, b: Option<Auth>) {
    match (a, b)
    case (None, None) => true
    case (Some(Enabled(x)), Some(Enabled(y))) => x == y
    case (Some(Client(p, c)), Some(Client(q, d))) => p == q && c == d
    case _ => false
  }

  predicate AreConfigsEqual(a: Upstream, b: Upstream) {
    && a.enabled == b.enabled
    && SameEntries(a.env, b.env)
    && match (a.transport, b.transport)
       case (Stdio(c, xs, w), Stdio(d, ys, v)) =>
         c == d && w == v && |xs| == |ys| && forall i :: 0 <= i < |xs| ==> xs[i] == ys[i]
       case (Sse(u, h, s), Sse(v, k, t)) => u == v && SameEntries(h, k) && SameAuth(s, t)
       case _ => false
  }

  /** Configs are equal exactly when they differ in the label at most. */
  lemma EqualUpToLabel(a: Upstream, b: Upstream)
    ensures AreConfigsEqual(a, b) <==> a.(labelText := b.labelText) == b
  {
    assert SameEntries(a.env, b.env) <==> a.env == b.env;
    match (a.transport, b.transport)
    case (Sse(_, h, s), Sse(_, k, t)) =>
      assert SameEntries(h, k) <==> h == k;
      assert SameAuth(s, t) <==> s == t;
    case (Stdio(_, xs, _), Stdio(_, ys, _)) =>
      assert (|xs| == |ys| && forall i :: 0 <= i < |xs| ==> xs[i] == ys[i]) <==> xs == ys;
    case _ =>
  }

  // ------------------------------------------------------------------ mapping twice

  /** What a mapped config becomes when it is turned back into a server of another name and mapped again. */
  function Remapped(name: string, config: Upstream): Upstream {
    config.(labelText := Some(name), env := NormalizedVars(config.env),
            transport := match config.transport
                         case Stdio(_, _, _) => config.transport
                         case Sse(url, headers, auth) => Sse(url, NormalizedVars(headers), auth))
  }

  /** A mapped config maps again, to itself but for the label and a second normalisation of its values. */
  lemma MapsAgain(name: string, server: External)
    requires MapServer(server).Some?
    ensures MapServer(ToExternal(name, MapServer(server).value)) == Some(Remapped(name, MapServer(server).value))
  {
    MapsAgainConfig(name, MapServer(server).value);
  }

  /** What every mapped config has: a command or a URL, and no empty working directory. */
  ghost predicate Mappable(config: Upstream) {
    match config.transport
    case Stdio(command, _, cwd) => command != "" && cwd != Some("")
    case Sse(url, _, _) => url != ""
  }

  lemma BackEnv(env: Env)
    ensures NormalizedVars(OrElse(if |env| > 0 then Some(env) else None, map[])) == NormalizedVars(env)
  {
    if |env| == 0 {
      assert env == map[];
    }
  }

  lemma MapsAgainConfig(name: string, config: Upstream)
    requires Mappable(config)
    ensures MapServer(ToExternal(name, config)) == Some(Remapped(name, config))
  {
    BackEnv(config.env);
    match config.transport
    case Stdio(_, _, _) =>
    case Sse(_, _, auth) =>
      assert auth.Some? ==> MapAuth(BackAuth(auth.value)) == auth.value;
  }

  /** In no value of a map do references nest. */
  ghost predicate Steady(env: Env) {
    forall k :: k in env ==> !NestedValue(env[k])
  }

  /** The values that mapping normalises: the environment, and for SSE the headers. */
  ghost predicate SteadyServer(server: External) {
    && Steady(OrElse(server.env, map[]))
    && (server.url.Some? || server.httpUrl.Some? ==> Steady(OrElse(server.headers, map[])))
  }

  lemma SteadyExactly(env: Env)
    ensures SameEntries(NormalizedVars(NormalizedVars(env)), NormalizedVars(env)) <==> Steady(env)
  {
    forall k | k in env
      ensures NormalizedVars(NormalizedVars(env))[k] == NormalizedVars(env)[k] <==> !NestedValue(env[k])
    {
      StableExactly(env[k]);
    }
  }

  lemma RemappedEqual(name: string, config: Upstream)
    ensures AreConfigsEqual(Remapped(name, config), config) <==>
            && SameEntries(NormalizedVars(config.env), config.env)
            && (config.transport.Sse? ==>
                  SameEntries(NormalizedVars(config.transport.headers), config.transport.headers))
  {
  }

  /** Mapping twice gives an equal config exactly when no value of the server has nested references. */
  lemma RemappedEqualExactly(name: string, server: External)
    requires MapServer(server).Some?
    ensures AreConfigsEqual(Remapped(name, MapServer(server).value), MapServer(server).value) <==> SteadyServer(server)
  {
    var config := MapServer(server).value;
    RemappedEqual(name, config);
    SteadyExactly(OrElse(server.env, map[]));
    if config.transport.Sse? {
      SteadyExactly(OrElse(server.headers, map[]));
    }
  }
}
