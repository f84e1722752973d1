/**
 * `getHTTPSOptions` (server.js:151-183): load the certificate and key files if both exist
 * and can be read; otherwise generate a self-signed pair and persist it for the next
 * start; and give up with `null` when generating or writing throws.
 */
module HttpsOptions {
  import opened Wrappers
  import opened Calendar
  import opened Files
  import opened SelfSignedCert

  /** The `{ key, cert }` object handed to `https.createServer`. */
  datatype Material = Material(key: Bytes, cert: Bytes)

  /** `path.join(dir, name)` for a plain file name. */
  function Join(dir: string, name: string): string {
    dir + "/" + name
  }

  /** The certificate file: `localhost.crt` inside the directory. */
  function CertPath(dir: string): (p: string)
    ensures |p| == |dir| + 14 && p[..|dir|] == dir && p[|dir|..] == "/localhost.crt"
  {
    Join(dir, "localhost.crt")
  }

  /** The key file: `localhost.key` inside the directory. */
  function KeyPath(dir: string): (p: string)
    ensures |p| == |dir| + 14 && p[..|dir|] == dir && p[|dir|..] == "/localhost.key"
  {
    Join(dir, "localhost.key")
  }

  /** The two files never collide, so writing one never destroys the other. */
  lemma PathsDistinct(dir: string)
    ensures CertPath(dir) != KeyPath(dir)
  {
    var c, k := CertPath(dir), KeyPath(dir);
    assert c[|c| - 1] == 't';
    assert k[|k| - 1] == 'y';
  }

  /**
   * The first try block (server.js:155-165): both files exist and both reads succeed, or the
   * attempt is abandoned (a missing file skips the block; a throwing read lands in the catch).
   */
  function LoadExisting(d: Disk, dir: string): (r: Option<Material>)
    ensures r.Some? <==> Read(d, KeyPath(dir)).Success? && Read(d, CertPath(dir)).Success?
    ensures r.Some? ==> r.value == Material(Read(d, KeyPath(dir)).value, Read(d, CertPath(dir)).value)
  {
    if CertPath(dir) in d.files && KeyPath(dir) in d.files then
      match Read(d, KeyPath(dir))
      case Failure(_) => None
      case Success(key) =>
        match Read(d, CertPath(dir))
        case Failure(_) => None
        case Success(cert) => Some(Material(key, cert))
    else None
  }

  /** The value `getHTTPSOptions` returns (None for `null`) and the file system it leaves. */
  datatype Outcome = Outcome(options: Option<Material>, disk: Disk)

  /**
   * What one call of `getHTTPSOptions` does, as a function of the file system it finds.
   * Whatever material it returns is what the key and cert files hold afterwards, and each of
   * them reads back exactly when it was new or readable before the call.
   */
  function Obtain(d: Disk, dir: string, now: DateTime, forge: Forge): (r: Outcome)
    requires Valid(now)
    ensures r.disk.readOnly == d.readOnly
    ensures r.options.Some? ==>
      KeyPath(dir) in r.disk.files && r.disk.files[KeyPath(dir)].data == r.options.value.key &&
      CertPath(dir) in r.disk.files && r.disk.files[CertPath(dir)].data == r.options.value.cert
    ensures r.options.Some? ==>
      (Read(r.disk, KeyPath(dir)).Success? <==> ReadableOnceWritten(d, KeyPath(dir))) &&
      (Read(r.disk, CertPath(dir)).Success? <==> ReadableOnceWritten(d, CertPath(dir)))
  {
    PathsDistinct(dir);
    var loaded := LoadExisting(d, dir);
    if loaded.Some? then Outcome(loaded, d)
    else
      match GenerateSelfSignedCert(now, forge)
      case Failure(_) => Outcome(None, d)
      case Success(g) =>
        var (certWritten, d1) := Write(d, CertPath(dir), g.cert);
        if !certWritten then Outcome(None, d1)
        else
          var (keyWritten, d2) := Write(d1, KeyPath(dir), g.key);
          if !keyWritten then Outcome(None, d2)
          else Outcome(Some(Material(g.key, g.cert)), d2)
  }

  /** Existing readable files are returned as they are, and nothing is written. */
  lemma LoadWritesNothing(d: Disk, dir: string, now: DateTime, forge: Forge)
    requires Valid(now)
    requires CertPath(dir) in d.files && d.files[CertPath(dir)].readable
    requires KeyPath(dir) in d.files && d.files[KeyPath(dir)].readable
    ensures Obtain(d, dir, now, forge) ==
      Outcome(Some(Material(d.files[KeyPath(dir)].data, d.files[CertPath(dir)].data)), d)
  {
  }

  /**
   * When the files are missing or a read throws and generation works, both files are
   * overwritten with the generated PEM texts, each keeping its read permission, and exactly
   * those texts are returned.
   */
  lemma GenerationOverwrites(d: Disk, dir: string, now: DateTime, forge: Forge)
    requires Valid(now)
    requires LoadExisting(d, dir).None?
    requires forge.Available?
    requires CertPath(dir) !in d.readOnly && KeyPath(dir) !in d.readOnly
    ensures Obtain(d, dir, now, forge) == Outcome(
      Some(Material(forge.keyPem, forge.certPem)),
      d.(files := d.files
        [CertPath(dir) := Entry(forge.certPem, ReadableOnceWritten(d, CertPath(dir)))]
        [KeyPath(dir) := Entry(forge.keyPem, ReadableOnceWritten(d, KeyPath(dir)))]))
  {
    PathsDistinct(dir);
  }

  /** When node-forge fails, the result is `null` and nothing is written. */
  lemma GenerationFailureIsNull(d: Disk, dir: string, now: DateTime, forge: Forge)
    requires Valid(now)
    requires LoadExisting(d, dir).None?
    requires forge.Unavailable?
    ensures Obtain(d, dir, now, forge) == Outcome(None, d)
  {
  }

  /**
   * When the certificate is written but writing the key throws, the result is `null` and
   * the certificate file has already been replaced while the old key file stays.
   */
  lemma KeyWriteFailureLeavesNewCertificate(d: Disk, dir: string, now: DateTime, forge: Forge)
    requires Valid(now)
    requires LoadExisting(d, dir).None?
    requires forge.Available?
    requires CertPath(dir) !in d.readOnly && KeyPath(dir) in d.readOnly
    ensures Obtain(d, dir, now, forge) ==
      Outcome(None, d.(files := d.files[CertPath(dir) := Entry(forge.certPem, ReadableOnceWritten(d, CertPath(dir)))]))
  {
  }

  /** `null` comes back exactly when loading fails and then generating or one of the writes fails. */
  lemma NullExactlyWhenBothFail(d: Disk, dir: string, now: DateTime, forge: Forge)
    requires Valid(now)
    ensures Obtain(d, dir, now, forge).options.None? <==>
      LoadExisting(d, dir).None? &&
      (forge.Unavailable? || CertPath(dir) in d.readOnly || KeyPath(dir) in d.readOnly)
  {
  }

  /** Files other than the certificate and the key are never touched, and no path becomes read-only. */
  lemma OnlyCertificateFilesChange(d: Disk, dir: string, now: DateTime, forge: Forge, p: string)
    requires Valid(now)
    requires p != CertPath(dir) && p != KeyPath(dir)
    ensures var d' := Obtain(d, dir, now, forge).disk;
      d'.readOnly == d.readOnly && (p in d'.files <==> p in d.files) &&
      (p in d.files ==> d'.files[p] == d.files[p])
  {
  }

  /**
   * Persistence round trip: after a call that returned material, and when neither file was
   * there unreadable before it, a second call, at any time and whatever node-forge would do,
   * takes the load branch, returns the same pair and writes nothing.
   */
  lemma SecondCallLoadsSamePair(d: Disk, dir: string, now: DateTime, forge: Forge, later: DateTime, forge': Forge)
    requires Valid(now) && Valid(later)
    requires Obtain(d, dir, now, forge).options.Some?
    requires ReadableOnceWritten(d, CertPath(dir)) && ReadableOnceWritten(d, KeyPath(dir))
    ensures var o := Obtain(d, dir, now, forge);
      Obtain(o.disk, dir, later, forge') == o
  {
    var o := Obtain(d, dir, now, forge);
    LoadWritesNothing(o.disk, dir, later, forge');
  }

  /**
   * The other case: a file that was there but unreadable stays unreadable after it is
   * overwritten, so the next call fails to load again and generates a new pair, returning
   * node-forge's new PEM texts instead of the ones just written.
   */
  lemma UnreadableFileIsRegenerated(d: Disk, dir: string, now: DateTime, forge: Forge, later: DateTime, forge': Forge)
    requires Valid(now) && Valid(later)
    requires Obtain(d, dir, now, forge).options.Some?
    requires !ReadableOnceWritten(d, CertPath(dir)) || !ReadableOnceWritten(d, KeyPath(dir))
    ensures var o := Obtain(d, dir, now, forge);
      LoadExisting(o.disk, dir).None? &&
      Obtain(o.disk, dir, later, forge').options ==
        (if forge'.Available? then Some(Material(forge'.keyPem, forge'.certPem)) else None)
  {
    var o := Obtain(d, dir, now, forge);
    NullExactlyWhenBothFail(d, dir, now, forge);
    assert CertPath(dir) !in d.readOnly && KeyPath(dir) !in d.readOnly;
    NullExactlyWhenBothFail(o.disk, dir, later, forge');
  }

  /** The steps of server.js:151-183 on the host's file system. */
  method GetHttpsOptions(fs: FileSystem, dir: string, now: DateTime, forge: Forge) returns (options: Option<Material>)
    requires Valid(now)
    modifies fs
    ensures Outcome(options, fs.State()) == Obtain(old(fs.State()), dir, now, forge)
  {
    var certPath, keyPath := CertPath(dir), KeyPath(dir);
    var certExists := fs.ExistsSync(certPath);
    var keyExists := false;
    if certExists {
      keyExists := fs.ExistsSync(keyPath);
    }
    if certExists && keyExists {
      var key := fs.ReadFileSync(keyPath);
      if key.Success? {
        var cert := fs.ReadFileSync(certPath);
        if cert.Success? {
          return Some(Material(key.value, cert.value));
        }
      }
      // a throwing read is caught and control falls through to generation
    }

    var generated := GenerateSelfSignedCert(now, forge);
    if generated.Failure? {
      return None;
    }
    var certWritten := fs.WriteFileSync(certPath, generated.value.cert);
    if !certWritten {
      return None;
    }
    var keyWritten := fs.WriteFileSync(keyPath, generated.value.key);
    if !keyWritten {
      return None;
    }
    return Some(Material(generated.value.key, generated.value.cert));
  }
}
