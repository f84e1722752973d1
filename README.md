# Static delivery and TLS start-up of the Flutter Web dashboard server

A Dafny model of the two pieces of logic in `server.js`, the Express server that serves the
built Flutter Web dashboard:

- **The static-asset header policy.** `express.static` calls a `setHeaders` callback for
  every file it serves. By suffix (`.js`, `.css`, `.html`, `.wasm`), the callback sets at
  most one `Cache-Control` and at most one `Content-Type` header. `AssetPolicy.SetHeaders`
  keeps the callback's two if-chains and its `res.setHeader` calls on a `Response` object.
  It is proved against an independent reference: `Classify` puts the path in one suffix
  class and the table `RuleFor` gives each class its header values. The four suffixes are
  proved mutually exclusive, so the order of the tests does not matter.
- **Certificate acquisition and listener selection.** `getHTTPSOptions` loads
  `localhost.crt` and `localhost.key` when both exist and can be read. Otherwise it
  generates a self-signed pair with node-forge and writes both files, or returns `null`
  when something throws. `startServer` then binds HTTPS on `HTTPS_PORT` when `USE_HTTPS`
  is on and material came back, and HTTP on `PORT` otherwise. If `https.createServer`
  rejects the material, the process crashes with nothing bound. The file system is a class
  over a map from paths to entries (`Files.FileSystem`), with `existsSync`, `readFileSync`
  and `writeFileSync` as its methods. `HttpsOptions.GetHttpsOptions` is a method that takes
  that file system. `Startup.Host.StartServer` is a method of the host process, which holds
  the file system and the bound listeners. Each is proved equal to a function of the state
  it finds (`HttpsOptions.Obtain`, `Startup.Start`). The properties are lemmas about those functions, among them the
  persistence round trip: after a successful call, the next call loads the same pair and
  writes nothing. That holds unless a file was there but unreadable before the call: a
  write keeps the file's mode, so the next call generates again.

Modules: `Wrappers` (Option, Result, bytes), `AssetPolicy`, `Calendar` (the `Date` fields
and `setFullYear`), `SelfSignedCert` (the certificate as an abstract record), `Files`,
`HttpsOptions` and `Startup`.

Inputs the program gets from its environment are parameters:
- the environment variables and `process.argv`;
- `__dirname`;
- the clock reading taken by `new Date()`;
- the outcome of node-forge's calls (`SelfSignedCert.Forge`): either a failure, or a key
  pair plus the PEM texts of the certificate and the key;
- the set of paths where `writeFileSync` throws;
- which certificate material the TLS layer accepts in `https.createServer` (`accepts`).

The PEM texts are opaque bytes. On generation the source returns strings, and on loading
it returns Buffers. Both are modelled as the same bytes, because PEM is ASCII and is
written as UTF-8.

## Model

| member | source | states |
|---|---|---|
| `AssetPolicy.SuffixesExclusive` | server.js:37-50 | no path ends with two of `.js`, `.css`, `.html`, `.wasm`, so the order of the tests in either chain does not matter |
| `AssetPolicy.EndsWith` | server.js:37-48 | `endsWith` holds iff the suffix is no longer than the path and the path's last characters equal the suffix position by position |
| `AssetPolicy.Classify` | server.js:37-50 | each suffix class holds exactly the paths with that suffix; `Other` holds exactly the paths with none of the four |
| `AssetPolicy.RuleHeaders` | server.js:37-50 | a rule contributes a `Cache-Control` key iff it has a cache value, a `Content-Type` key iff it has a type, with those values and no other key |
| `AssetPolicy.RuleFor` | server.js:38-49 | the one-year directive goes exactly to scripts and stylesheets, `no-cache` exactly to markup, a content type exactly to scripts, markup and WebAssembly, and only other files get no value at all |
| `AssetPolicy.PolicyHeaders` | server.js:35-51 | the callback's headers have only the two keys: `Cache-Control` iff the path ends in `.js`, `.css` or `.html`, `Content-Type` iff it ends in `.js`, `.html` or `.wasm`; the exact values per class are in the five lemmas below |
| `AssetPolicy.ScriptHeaders` | server.js:37-45 | a `.js` path gets exactly `Cache-Control: public, max-age=31536000` and `Content-Type: application/javascript; charset=utf-8` |
| `AssetPolicy.StylesheetHeaders` | server.js:37-50 | a `.css` path gets exactly the one-year `Cache-Control` and no `Content-Type` |
| `AssetPolicy.MarkupHeaders` | server.js:39-49 | an `.html` path gets exactly `Cache-Control: no-cache` and `Content-Type: text/html; charset=utf-8` |
| `AssetPolicy.WasmHeaders` | server.js:44-47 | a `.wasm` path gets exactly `Content-Type: application/wasm` and no `Cache-Control` |
| `AssetPolicy.OtherHeaders` | server.js:35-51 | a path with none of the four suffixes gets no header at all |
| `AssetPolicy.Response.SetHeader` | server.js:38 | `res.setHeader` replaces that one header's value and keeps every other header |
| `AssetPolicy.SetHeaders` | server.js:35-51 | the callback leaves the old header map overridden by the table's headers for the path's class; every header other than the two is unchanged |
| `Calendar.SetFullYear` | server.js:93 | `setFullYear(y)` yields a valid date in year `y` with the same time of day, and the same month and day, except that a 29 February missing in `y` becomes 1 March |
| `Calendar.SetFullYearLater` | server.js:93 | moving a date into a later year moves it forward in time |
| `SelfSignedCert.AttributeValue` | server.js:95-101 | the distinguished-name lookup used to state "CN = localhost" over the attribute list: the value of the first attribute with that name, or none when no attribute has the name |
| `SelfSignedCert.ValidityAsWritten` | server.js:91-93 | the period as written, for any two clock readings: `notBefore` is the first reading and `notAfter`'s year is `notBefore`'s year + 1 |
| `SelfSignedCert.ValidityAsWrittenCounterexample` | server.js:91-93 | with readings 31 Dec 2025 23:59:59.999 and 1 Jan 2026 00:00:00.000, `notAfter` is 1 Jan 2026, not one year after `notBefore` |
| `SelfSignedCert.ValidityAsWrittenClockStepBack` | server.js:91-93 | with readings 1 Jan 2026 00:00:00.000 and then 31 Dec 2025 23:59:59.999 (the clock stepped back), `notAfter` is 31 Dec 2027 23:59:59.999, almost two years later |
| `SelfSignedCert.ValidityFrom` | server.js:91-93 | the corrected period starts at the reading and ends one calendar year later, strictly after it, on a valid date |
| `SelfSignedCert.LocalhostCertificate` | server.js:87-140 | serial `01`, the generated public key, subject equal to issuer with CN `localhost`, SAN DNS `localhost` and IP `127.0.0.1`, CA basic constraint, serverAuth and clientAuth usages, `notAfter` in the year after `notBefore` |
| `SelfSignedCert.GenerateSelfSignedCert` | server.js:84-148 | fails exactly when node-forge does, with its message; otherwise returns node-forge's PEM texts and a localhost self-signed certificate for its key |
| `Files.Read` | server.js:159-160 | `readFileSync` succeeds exactly on an existing readable file and returns its bytes |
| `Files.Write` | server.js:173-174 | `writeFileSync` succeeds exactly on a writable path, and then sets that file's bytes and changes nothing else; a new file is readable, and an existing file keeps its read permission; on failure nothing changes |
| `Files.ReadAfterWrite` | server.js:173-174 | after a successful write, reading that path succeeds iff the file was new or readable, and then gives the bytes written; reading any other path gives what it gave before |
| `Files.FileSystem.ExistsSync` | server.js:157 | `existsSync` is true exactly for paths with an entry, readable or not |
| `Files.FileSystem.ReadFileSync` | server.js:159-160 | the method returns what `Read` gives on the current state |
| `Files.FileSystem.WriteFileSync` | server.js:173-174 | the new state and the success flag are those of `Write` on the old state |
| `HttpsOptions.PathsDistinct` | server.js:152-153 | the certificate path and the key path differ for every directory |
| `HttpsOptions.CertPath` | server.js:152 | the certificate path is the directory followed by `/localhost.crt` |
| `HttpsOptions.KeyPath` | server.js:153 | the key path is the directory followed by `/localhost.key` |
| `HttpsOptions.LoadExisting` | server.js:155-165 | loading yields material exactly when both reads succeed, and then it holds the key file's and the cert file's bytes |
| `HttpsOptions.Obtain` | server.js:151-183 | the returned material is what the key and cert files hold afterwards, each file reads back iff it was new or readable before the call, and no path's write permission changes; the branches are stated by the lemmas below |
| `HttpsOptions.LoadWritesNothing` | server.js:155-162 | existing readable files are returned as `{key, cert}` and the file system is unchanged |
| `HttpsOptions.GenerationOverwrites` | server.js:163-177 | when loading fails and generation works, both files get node-forge's PEM texts and keep their read permission, and exactly those texts are returned |
| `HttpsOptions.GenerationFailureIsNull` | server.js:178-182 | when loading fails and node-forge fails, the result is `null` and nothing is written |
| `HttpsOptions.KeyWriteFailureLeavesNewCertificate` | server.js:173-182 | if the key write throws after the certificate write succeeded, the result is `null`, and the new certificate stays on disk next to the old key |
| `HttpsOptions.NullExactlyWhenBothFail` | server.js:151-183 | `null` comes back iff loading fails and then node-forge or one of the two writes fails |
| `HttpsOptions.OnlyCertificateFilesChange` | server.js:151-183 | no file other than the two certificate files is created, changed or removed |
| `HttpsOptions.SecondCallLoadsSamePair` | server.js:151-183 | after a call that returned material, with neither file there unreadable before it, a second call at any time, whatever node-forge does, loads the same pair and writes nothing |
| `HttpsOptions.UnreadableFileIsRegenerated` | server.js:155-177 | if a file was there but unreadable, it stays unreadable after being overwritten: the next call fails to load again and returns node-forge's new pair, or `null` |
| `HttpsOptions.GetHttpsOptions` | server.js:151-183 | the method's result and new file system are those of `Obtain` on the old file system |
| `Startup.PortFrom` | server.js:11-12 | `process.env.X \|\| n` is the variable's text iff it is set and non-empty, otherwise the default number |
| `Startup.UseHttps` | server.js:14 | `USE_HTTPS` holds iff the variable is exactly `true` or some position of argv holds `--https` |
| `Startup.LoadConfig` | server.js:11-14 | `PORT` defaults to 6001 and `HTTPS_PORT` to 6443; `USE_HTTPS` holds iff the variable is exactly `true` or argv contains `--https` |
| `Startup.Start` | server.js:186-221 | an HTTPS listener only ever runs with material the TLS layer accepts; of the uncaught throws, the model has only that of `https.createServer`, which can happen only on an HTTPS start |
| `Startup.HttpsExactlyWithMaterial` | server.js:187-220 | HTTPS is bound iff `USE_HTTPS` holds and accepted material was obtained, then on `HTTPS_PORT` with that material; the process crashes iff the obtained material is rejected; otherwise HTTP is bound on `PORT` |
| `Startup.PlainHttpLeavesFilesAlone` | server.js:186-220 | without `USE_HTTPS`, HTTP is bound on `PORT` and the file system is unchanged |
| `Startup.RestartReusesMaterial` | server.js:186-201 | a restart after an HTTPS start, with neither certificate file there unreadable before it, binds HTTPS again with the same material and writes nothing |
| `Startup.RestartAfterKeyWriteFailureLoadsMixedPair` | server.js:173-201 | after a start whose key write threw on a cert path with no unreadable file, the start falls back to HTTP; the next HTTPS start loads the new certificate with the old key, and binds it or crashes depending on whether the TLS layer accepts that pair |
| `Startup.Host.Listen` | server.js:209 | binding a server adds exactly that listener |
| `Startup.Host.StartServer` | server.js:186-221 | at most one listener is added: the one `Start` chooses, or none when `https.createServer` throws; the file system ends as `Start` says |

## Left out

- Express middleware wiring is not modelled: helmet, the CORS origin list, compression,
  and `express.static`'s `maxAge`, etag and last-modified options (server.js:17-31). These
  are library calls whose behaviour the file does not show. This includes how `send` adds
  its own `Cache-Control` or guessed `Content-Type` when the callback set none.
- `AssetPolicy.SetHeaders`: header names are exact strings here. Node matches them without
  regard to case, so a header set earlier as `cache-control` would also be replaced. The
  callback only ever uses the two fixed spellings.
- `AssetPolicy.Response.SetHeader`: the same gap. It replaces only the header with exactly
  that spelling, where Node's `setHeader` replaces any spelling of the name.
- The `/health` handler, the SPA catch-all `sendFile` and the error middleware (server.js:55-81)
  are not modelled: they are timestamps, uptime and response formatting. A failed `sendFile`
  answers 500.
- RSA key generation, signing and PEM encoding with node-forge (server.js:85-89, 142-147)
  are foreign calls. Their results are an oracle value. The certificate is an abstract
  record of the fields set, not X.509, and the PEM bytes are not tied to that record.
- Dates are local calendar fields. Time zones and daylight-saving shifts inside
  `new Date()` and `setFullYear` are not modelled.
- `path.join` is modelled as `dir + "/" + name`, without normalising `dir`.
- `Files.Write`: a write throws only on a read-only path, and a failed write keeps the old
  contents. Node's `writeFileSync` opens the file with flag `w`, which empties it first. So
  a disk-full or I/O error can leave an empty or partial file, which the next start would
  load. The model does not capture that truncation.
- `SelfSignedCert.LocalhostCertificate`, `SelfSignedCert.GenerateSelfSignedCert`: these
  build the validity period from one clock reading, using the corrected `ValidityFrom`. The
  source takes two readings (server.js:91-92), and the as-written period is
  `ValidityAsWritten` (see "## Findings"). The record never reaches the PEM bytes that
  `getHTTPSOptions` returns, so no other result depends on this choice.
- `Startup.Start`, `Startup.Host.StartServer`: parsing the PEM texts and checking that key
  and certificate belong together stay inside the TLS layer. They are the oracle `accepts`.
- Graceful shutdown (server.js:224-245) is not modelled: signal handlers, `server.close`,
  the 10-second timer and `process.exit`.
- `Startup.Start`, `Startup.Host.StartServer`: errors from `listen` are not modelled, on
  either branch. `listen` throws synchronously on a port text it cannot use (`PORT=70000`,
  `HTTPS_PORT=1.5`: `ERR_SOCKET_BAD_PORT`), and it emits an error event such as EADDRINUSE
  when binding fails. Nothing in server.js catches either, so either ends the process with
  no listener, on the HTTP path too. The model binds whatever port text it is given.
- Console logging is not modelled.

## Findings

| source | as written | input that shows it | evidently intended | confidence | as-written member | corrected member |
|---|---|---|---|---|---|---|
| server.js:91-93 | `notBefore` and `notAfter` come from two separate `new Date()` readings; `notAfter` takes only its year from `notBefore` | readings 31 Dec 2025 23:59:59.999 and 1 Jan 2026 00:00:00.000 (local) give a certificate valid for one millisecond; readings 1 Jan 2026 00:00:00.000 and then 31 Dec 2025 23:59:59.999 (the clock stepped back) give one valid for almost two years (`ValidityAsWrittenClockStepBack`) | `notAfter` one calendar year after `notBefore` | not executed; needs the clock to cross New Year's midnight between two consecutive statements | `SelfSignedCert.ValidityAsWrittenCounterexample` | `SelfSignedCert.ValidityFrom` |

The model generates certificates with the corrected `ValidityFrom`: one clock reading, with
`notAfter` set from that same reading.
