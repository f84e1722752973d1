/**
 * Start-up configuration (server.js:11-14) and `startServer` (server.js:186-221): read the
 * ports and the HTTPS switch once, then bind exactly one listener, HTTPS when it was asked
 * for and certificate material is available, plain HTTP otherwise.
 */
module Startup {
  import opened Wrappers
  import opened Calendar
  import opened Files
  import opened SelfSignedCert
  import opened HttpsOptions

  /** The value of `process.env.X || n`: the variable's text when it is set and non-empty, else the number. */
  datatype PortSetting = FromEnv(text: string) | Default(number: nat)

  const DefaultHttpPort: nat := 6001
  const DefaultHttpsPort: nat := 6443

  /** `process.env[name] || fallback`: an unset variable and the empty string are both falsy. */
  function PortFrom(env: map<string, string>, name: string, fallback: nat): (p: PortSetting)
    ensures p.FromEnv? <==> name in env && env[name] != ""
    ensures p.FromEnv? ==> p.text == env[name]
    ensures p.Default? ==> p.number == fallback
  {
    if name in env && env[name] != "" then FromEnv(env[name]) else Default(fallback)
  }

  /**
   * `USE_HTTPS`: the variable compared strictly with `'true'`, or `argv.includes('--https')`,
   * which holds when some position of argv holds the flag.
   */
  function UseHttps(env: map<string, string>, argv: seq<string>): (b: bool)
    ensures b <==>
      ("USE_HTTPS" in env && env["USE_HTTPS"] == "true") || exists i :: 0 <= i < |argv| && argv[i] == "--https"
  {
    ("USE_HTTPS" in env && env["USE_HTTPS"] == "true") || "--https" in argv
  }

  datatype Config = Config(port: PortSetting, httpsPort: PortSetting, useHttps: bool)

  /** The constants of server.js:11-14, computed once when the module loads. */
  function LoadConfig(env: map<string, string>, argv: seq<string>): (c: Config)
    ensures c.useHttps <==> UseHttps(env, argv)
    ensures c.port == (if "PORT" in env && env["PORT"] != "" then FromEnv(env["PORT"]) else Default(6001))
    ensures c.httpsPort == (if "HTTPS_PORT" in env && env["HTTPS_PORT"] != "" then FromEnv(env["HTTPS_PORT"]) else Default(6443))
  {
    Config(PortFrom(env, "PORT", DefaultHttpPort), PortFrom(env, "HTTPS_PORT", DefaultHttpsPort), UseHttps(env, argv))
  }

  /** A server created with `http.createServer(app)` or `https.createServer(options, app)` and bound to a port. */
  datatype Listener = HttpListener(port: PortSetting) | HttpsListener(port: PortSetting, options: Material)

  /**
   * How `startServer` ends: one listener bound and the file system it leaves, or the process
   * gone because `https.createServer` threw on material the TLS layer rejects (bad PEM, an
   * empty file, a key that does not belong to the certificate) and nothing caught it.
   */
  datatype Launch = Listening(listener: Listener, disk: Disk) | Crashed(disk: Disk)

  /**
   * What one call of `startServer` does, as a function of the configuration and the file
   * system; `accepts` tells which material the TLS layer takes. An HTTPS listener only ever
   * runs with accepted material, and only an HTTPS start can crash.
   */
  function Start(cfg: Config, d: Disk, dir: string, now: DateTime, forge: Forge, accepts: Material -> bool): (r: Launch)
    requires Valid(now)
    ensures r.Listening? && r.listener.HttpsListener? ==> accepts(r.listener.options)
    ensures r.Crashed? ==> cfg.useHttps
  {
    if cfg.useHttps then
      var o := Obtain(d, dir, now, forge);
      if o.options.Some? then
        if accepts(o.options.value) then Listening(HttpsListener(cfg.httpsPort, o.options.value), o.disk)
        else Crashed(o.disk)
      else Listening(HttpListener(cfg.port), o.disk)
    else Listening(HttpListener(cfg.port), d)
  }

  /**
   * HTTPS is bound exactly when it was asked for and accepted material was obtained, on
   * `HTTPS_PORT` with that material; the process crashes exactly when the obtained material is
   * rejected; otherwise HTTP is bound on `PORT`.
   */
  lemma HttpsExactlyWithMaterial(cfg: Config, d: Disk, dir: string, now: DateTime, forge: Forge, accepts: Material -> bool)
    requires Valid(now)
    ensures var o, r := Obtain(d, dir, now, forge), Start(cfg, d, dir, now, forge, accepts);
      (r.Listening? && r.listener.HttpsListener? <==> cfg.useHttps && o.options.Some? && accepts(o.options.value)) &&
      (r.Crashed? <==> cfg.useHttps && o.options.Some? && !accepts(o.options.value)) &&
      (r.Listening? && r.listener.HttpsListener? ==> r.listener.port == cfg.httpsPort && r.listener.options == o.options.value) &&
      (r.Listening? && r.listener.HttpListener? ==> r.listener.port == cfg.port)
  {
  }

  /** Without HTTPS the certificate files are neither read for material nor written. */
  lemma PlainHttpLeavesFilesAlone(cfg: Config, d: Disk, dir: string, now: DateTime, forge: Forge, accepts: Material -> bool)
    requires Valid(now) && !cfg.useHttps
    ensures Start(cfg, d, dir, now, forge, accepts) == Listening(HttpListener(cfg.port), d)
  {
  }

  /**
   * A restart after an HTTPS start, when neither certificate file was there unreadable before
   * it, binds HTTPS again with the same material, whatever the clock and node-forge do the
   * second time, and writes nothing.
   */
  lemma RestartReusesMaterial(cfg: Config, d: Disk, dir: string, now: DateTime, forge: Forge, later: DateTime, forge': Forge, accepts: Material -> bool)
    requires Valid(now) && Valid(later)
    requires Start(cfg, d, dir, now, forge, accepts).Listening?
    requires Start(cfg, d, dir, now, forge, accepts).listener.HttpsListener?
    requires ReadableOnceWritten(d, CertPath(dir)) && ReadableOnceWritten(d, KeyPath(dir))
    ensures var first := Start(cfg, d, dir, now, forge, accepts);
      Start(cfg, first.disk, dir, later, forge', accepts) == first
  {
    SecondCallLoadsSamePair(d, dir, now, forge, later, forge');
  }

  /**
   * When writing the key throws after the new certificate was written, this start falls back
   * to HTTP, and the next HTTPS start loads the new certificate with the OLD key: it binds
   * HTTPS with that mixed pair if the TLS layer takes it, and crashes otherwise.
   */
  lemma RestartAfterKeyWriteFailureLoadsMixedPair(
    cfg: Config, d: Disk, dir: string, now: DateTime, forge: Forge, later: DateTime, forge': Forge, accepts: Material -> bool)
    requires Valid(now) && Valid(later) && cfg.useHttps
    requires LoadExisting(d, dir).None? && forge.Available?
    requires CertPath(dir) !in d.readOnly && KeyPath(dir) in d.readOnly
    requires KeyPath(dir) in d.files && d.files[KeyPath(dir)].readable
    requires ReadableOnceWritten(d, CertPath(dir))
    ensures var d1 := d.(files := d.files[CertPath(dir) := Entry(forge.certPem, true)]);
      var mixed := Material(d.files[KeyPath(dir)].data, forge.certPem);
      Start(cfg, d, dir, now, forge, accepts) == Listening(HttpListener(cfg.port), d1) &&
      Start(cfg, d1, dir, later, forge', accepts) ==
        (if accepts(mixed) then Listening(HttpsListener(cfg.httpsPort, mixed), d1) else Crashed(d1))
  {
    KeyWriteFailureLeavesNewCertificate(d, dir, now, forge);
    var d1 := d.(files := d.files[CertPath(dir) := Entry(forge.certPem, true)]);
    PathsDistinct(dir);
    LoadWritesNothing(d1, dir, later, forge');
  }

  /** The host process: its file system and the listeners it has bound. */
  class Host {
    const fs: FileSystem
    var listeners: seq<Listener>

    constructor (fs: FileSystem)
      ensures this.fs == fs && listeners == []
    {
      this.fs := fs;
      listeners := [];
    }

    /** `server.listen(port)` on a newly created server. */
    method Listen(l: Listener)
      modifies this
      ensures listeners == old(listeners) + [l]
    {
      listeners := listeners + [l];
    }

    /**
     * `startServer()`: binds at most one listener, the one `Start` chooses; `None` is the
     * uncaught throw of `https.createServer`, after which nothing is bound.
     */
    method StartServer(cfg: Config, dir: string, now: DateTime, forge: Forge, accepts: Material -> bool) returns (l: Option<Listener>)
      requires Valid(now)
      modifies this, fs
      ensures listeners == old(listeners) + (if l.Some? then [l.value] else [])
      ensures (if l.Some? then Listening(l.value, fs.State()) else Crashed(fs.State())) ==
        Start(cfg, old(fs.State()), dir, now, forge, accepts)
    {
      if cfg.useHttps {
        var httpsOptions := GetHttpsOptions(fs, dir, now, forge);
        if httpsOptions.Some? {
          if !accepts(httpsOptions.value) {
            // https.createServer throws and the process exits
            return None;
          }
          var server := HttpsListener(cfg.httpsPort, httpsOptions.value);
          Listen(server);
          return Some(server);
        }
        // no material: fall back to HTTP
      }
      var server := HttpListener(cfg.port);
      Listen(server);
      l := Some(server);
    }
  }
}
