/**
 Options (options.go): defaults and bounds.  Durations are nanoseconds.  Parsing peer
 addresses and loading TLS files are foreign; they enter as `usable` and `tlsReady`.
 */
module Options {
  import opened Errors
  import opened Text
  import opened Streams

  const SECOND := 1_000_000_000
  const HOUR := 3600 * SECOND

  datatype Credentials = Credentials(username: Bytes, password: Bytes, authToken: Bytes, secretKey: Bytes)

  datatype Options = Options(
    connectTimeout: int, readTimeout: int, writeTimeout: int,
    maxFrameBytes: int, maxRedirects: int, disableReadRetry: bool,
    credentials: Credentials, galaxy: Bytes)

  /** A field that goes into a handshake line: no blanks, control bytes or DEL, at most 1024 bytes. */
  predicate PlainField(s: Bytes) {
    |s| <= 1024 && forall i :: 0 <= i < |s| ==> s[i] as int > 32 && s[i] as int != 127
  }

  /** What every accepted set of options satisfies; the rest of the driver relies on it. */
  predicate Normal(o: Options) {
    && 0 < o.connectTimeout <= HOUR && 0 < o.readTimeout <= HOUR && 0 < o.writeTimeout <= HOUR
    && 1 <= o.maxFrameBytes <= MAX_FRAME
    && 1 <= o.maxRedirects <= 32
    && PlainField(o.credentials.username) && PlainField(o.credentials.password) && PlainField(o.galaxy)
    && |o.credentials.secretKey| <= 4096
    && (o.credentials.username == [] ==>
          o.credentials.password == [] && o.credentials.secretKey == [] && o.credentials.authToken == [])
  }

  function Timeout(d: int): int {
    if d == 0 then 5 * SECOND else d
  }

  /** A token is the password of the user "token". */
  function Token(c: Credentials): Credentials {
    if c.username == [] && c.authToken != [] then c.(username := "token", password := c.authToken) else c
  }

  /** Zero values replaced by the documented defaults. */
  function WithDefaults(o: Options): Options {
    o.(connectTimeout := Timeout(o.connectTimeout), readTimeout := Timeout(o.readTimeout),
       writeTimeout := Timeout(o.writeTimeout),
       maxFrameBytes := if o.maxFrameBytes == 0 then MAX_FRAME else o.maxFrameBytes,
       maxRedirects := if o.maxRedirects == 0 then 8 else o.maxRedirects,
       credentials := Token(o.credentials))
  }

  predicate UsablePeers(peers: seq<Bytes>, usable: Bytes -> bool) {
    0 < |peers| <= 64 && forall i :: 0 <= i < |peers| ==> usable(peers[i])
  }

  /** The loop over the peers. */
  method CheckPeers(peers: seq<Bytes>, usable: Bytes -> bool) returns (ok: bool)
    ensures ok <==> UsablePeers(peers, usable)
    ensures ok <==> 1 <= |peers| <= 64 && forall p :: p in peers ==> usable(p)
  {
    if |peers| == 0 || |peers| > 64 {
      return false;
    }
    for i := 0 to |peers|
      invariant forall j :: 0 <= j < i ==> usable(peers[j])
    {
      if !usable(peers[i]) {
        return false;
      }
    }
    return true;
  }

  /** The loop over the timeouts, which it defaults in place. */
  method CheckTimeouts(ds: array<int>) returns (ok: bool)
    modifies ds
    ensures ok <==> forall i :: 0 <= i < ds.Length ==> 0 <= old(ds[i]) <= 3_600_000_000_000
    ensures ok ==> forall i :: 0 <= i < ds.Length ==> ds[i] == if old(ds[i]) == 0 then 5_000_000_000 else old(ds[i])
  {
    for i := 0 to ds.Length
      invariant forall j :: i <= j < ds.Length ==> ds[j] == old(ds[j])
      invariant forall j :: 0 <= j < i ==> ds[j] == Timeout(old(ds[j])) && 0 < ds[j] <= HOUR
    {
      if ds[i] == 0 {
        ds[i] := 5 * SECOND;
      }
      if ds[i] < 0 || ds[i] > HOUR {
        return false;
      }
    }
    return true;
  }

  /** The loop over the bytes of one credential field. */
  method CheckField(field: Bytes) returns (ok: bool)
    ensures ok <==> PlainField(field)
  {
    if |field| > 1024 {
      return false;
    }
    for j := 0 to |field|
      invariant forall m :: 0 <= m < j ==> field[m] as int > 32 && field[m] as int != 127
    {
      if field[j] as int <= 32 || field[j] as int == 127 {
        return false;
      }
    }
    return true;
  }

  /** options.go's normalize: exactly the options whose defaulted form is normal are accepted. */
  method Normalize(peers: seq<Bytes>, options: Options, usable: Bytes -> bool, tlsReady: bool)
    returns (r: Result<Options>)
    ensures r.Ok? <==> UsablePeers(peers, usable) && Normal(WithDefaults(options)) && tlsReady
    ensures r.Ok? ==> r.value == WithDefaults(options)
    ensures r.Err? ==> r.error == Fail(Input)
  {
    var o := options;
    var ok := CheckPeers(peers, usable);
    if !ok {
      return Err(Fail(Input));
    }
    var ds := new int[3];
    ds[0], ds[1], ds[2] := o.connectTimeout, o.readTimeout, o.writeTimeout;
    ok := CheckTimeouts(ds);
    if !ok {
      return Err(Fail(Input));
    }
    o := o.(connectTimeout := ds[0], readTimeout := ds[1], writeTimeout := ds[2]);
    if o.maxFrameBytes == 0 {
      o := o.(maxFrameBytes := MAX_FRAME);
    }
    if o.maxRedirects == 0 {
      o := o.(maxRedirects := 8);
    }
    if o.maxFrameBytes < 1 || o.maxFrameBytes > MAX_FRAME || o.maxRedirects < 0 || o.maxRedirects > 32 {
      return Err(Fail(Input));
    }
    var c := o.credentials;
    if c.username == [] && c.authToken != [] {
      c := c.(username := "token", password := c.authToken);
    }
    o := o.(credentials := c);
    var user := CheckField(c.username);
    var pass := CheckField(c.password);
    var galaxy := CheckField(o.galaxy);
    if !user || !pass || !galaxy {
      return Err(Fail(Input));
    }
    if |c.secretKey| > 4096 || (c.username == [] && (c.password != [] || c.secretKey != [])) {
      return Err(Fail(Input));
    }
    if !tlsReady {
      return Err(Fail(Input));
    }
    return Ok(o);
  }

  /** Normal options are their own defaulted form, so normalizing twice changes nothing. */
  lemma NormalIsStable(o: Options)
    ensures Normal(o) ==> WithDefaults(o) == o
    ensures Normal(WithDefaults(o)) ==> WithDefaults(WithDefaults(o)) == WithDefaults(o)
  {
    var d := WithDefaults(o);
    assert d.credentials.username != [] || d.credentials.authToken == [];
  }

  /** No longer than 1024 bytes, and none of them a blank, a control byte or DEL. */
  predicate FieldText(s: Bytes) {
    |s| <= 1024 && forall b: byte :: b in s ==> ' ' < b && b as int != 127
  }

  /**
   Which options are accepted, in terms of what the caller passes: durations and limits may be
   zero, a token may stand for username and password, and without either there is no secret.
   */
  lemma AcceptsExactly(o: Options)
    ensures Normal(WithDefaults(o)) <==>
              && 0 <= o.connectTimeout <= 3_600_000_000_000 && 0 <= o.readTimeout <= 3_600_000_000_000
              && 0 <= o.writeTimeout <= 3_600_000_000_000
              && 0 <= o.maxFrameBytes <= 0x400_0000 && 0 <= o.maxRedirects <= 32
              && FieldText(o.galaxy) && |o.credentials.secretKey| <= 4096
              && if o.credentials.username != [] then
                   FieldText(o.credentials.username) && FieldText(o.credentials.password)
                 else if o.credentials.authToken != [] then FieldText(o.credentials.authToken)
                 else o.credentials.password == [] && o.credentials.secretKey == []
  {
    SameField(o.galaxy);
    SameField(o.credentials.username);
    SameField(o.credentials.password);
    SameField(o.credentials.authToken);
  }

  lemma SameField(s: Bytes)
    ensures PlainField(s) <==> FieldText(s)
  {
    assert forall i :: 0 <= i < |s| ==> s[i] in s;
  }

  /** What a caller gets who leaves things out, and that nothing else changes. */
  lemma DefaultsAreDocumented(o: Options)
    ensures var d := WithDefaults(o);
            && d.connectTimeout == (if o.connectTimeout == 0 then 5_000_000_000 else o.connectTimeout)
            && d.readTimeout == (if o.readTimeout == 0 then 5_000_000_000 else o.readTimeout)
            && d.writeTimeout == (if o.writeTimeout == 0 then 5_000_000_000 else o.writeTimeout)
            && d.maxFrameBytes == (if o.maxFrameBytes == 0 then 64 * 1024 * 1024 else o.maxFrameBytes)
            && d.maxRedirects == (if o.maxRedirects == 0 then 8 else o.maxRedirects)
            && d.disableReadRetry == o.disableReadRetry && d.galaxy == o.galaxy
            && d.credentials.secretKey == o.credentials.secretKey
            && (d.credentials == o.credentials
                || (o.credentials.username == [] && o.credentials.authToken != []
                    && d.credentials.username == "token" && d.credentials.password == o.credentials.authToken))
            && (d.credentials.username == [] ==> o.credentials.authToken == [])
  {
  }
}
