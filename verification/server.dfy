/** The decisions the server entry point makes around the routes: the CORS
    origin list and callback, the `/api` request log line, and the status
    and message of the central error handler. `NODE_ENV` is reduced to the
    `isDevelopment` flag (anything but "production").
 */
module Server {
  import opened Wrappers
  import opened Text
  import opened Json

  // ---------------------------------------------------------------------
  // CORS

  const ProductionOrigin: string := "https://devineseniorliving.com"
  const LocalPrefix: string := "http://localhost:"

  function LocalOrigin(port: nat): string {
    LocalPrefix + ShowNat(port)
  }

  /** The `i`-th development port, in the order the ports are pushed:
      3000, 5000, 5001, then 5002 through 5010 from the loop. */
  function DevPort(i: nat): (p: nat)
    requires i < 12
    ensures p == 3000 || 5000 <= p <= 5010
  {
    if i == 0 then 3000 else 4999 + i
  }

  /** Every port of 3000 and 5000..5010 is a development port, and each
      appears once. */
  lemma {:induction false} DevPortsCover(p: nat)
    ensures (exists i :: 0 <= i < 12 && DevPort(i) == p) <==> p == 3000 || 5000 <= p <= 5010
    ensures forall i, j :: 0 <= i < 12 && 0 <= j < 12 && DevPort(i) == DevPort(j) ==> i == j
  {
    if p == 3000 {
      assert DevPort(0) == p;
    } else if 5000 <= p <= 5010 {
      assert DevPort(p - 4999) == p;
    }
  }

  /** `allowedOrigins` once the module has run. */
  function AllowedOrigins(isDevelopment: bool): (origins: seq<string>)
    ensures |origins| >= 1 && origins[0] == ProductionOrigin
    ensures !isDevelopment ==> origins == [ProductionOrigin]
    ensures isDevelopment ==> |origins| == 13
                              && forall i :: 0 <= i < 12 ==> origins[i + 1] == LocalOrigin(DevPort(i))
  {
    [ProductionOrigin] + if isDevelopment then seq(12, i requires 0 <= i < 12 => LocalOrigin(DevPort(i))) else []
  }

  /** The construction as the module performs it: the production domain,
      three pushes, then a counting loop over 5002..5010. */
  method BuildAllowedOrigins(isDevelopment: bool) returns (origins: seq<string>)
    ensures origins == AllowedOrigins(isDevelopment)
  {
    origins := [ProductionOrigin];
    if isDevelopment {
      origins := origins + [LocalOrigin(3000)];
      origins := origins + [LocalOrigin(5000)];
      origins := origins + [LocalOrigin(5001)];
      var port := 5002;
      while port <= 5010
        invariant 5002 <= port <= 5011
        invariant |origins| == port - 4998
        invariant origins[0] == ProductionOrigin
        invariant forall i :: 0 <= i < |origins| - 1 ==> origins[i + 1] == LocalOrigin(DevPort(i))
      {
        var prior := origins;
        origins := prior + [LocalOrigin(port)];
        assert DevPort(|prior| - 1) == port;
        assert forall i :: 0 <= i < |prior| ==> origins[i] == prior[i];
        port := port + 1;
      }
    }
  }

  /** No localhost origin is the production origin: the two differ in
      their fifth character. */
  lemma {:induction false} LocalIsNotProduction(port: nat)
    ensures LocalOrigin(port) != ProductionOrigin
  {
    assert LocalOrigin(port)[4] == ':';
    assert ProductionOrigin[4] == 's';
  }

  /** A localhost origin is on the development list exactly when its port
      is 3000 or lies in 5000..5010, and never on the production list. */
  lemma {:induction false} LocalOriginListed(port: nat, isDevelopment: bool)
    ensures LocalOrigin(port) in AllowedOrigins(isDevelopment) <==>
              isDevelopment && (port == 3000 || 5000 <= port <= 5010)
  {
    var origins := AllowedOrigins(isDevelopment);
    LocalIsNotProduction(port);
    if isDevelopment && (port == 3000 || 5000 <= port <= 5010) {
      var k := if port == 3000 then 0 else port - 4999;
      assert DevPort(k) == port;
      assert origins[k + 1] == LocalOrigin(port);
    }
    if LocalOrigin(port) in origins {
      var k :| 0 <= k < |origins| && origins[k] == LocalOrigin(port);
      assert k > 0;
      var q := DevPort(k - 1);
      assert LocalOrigin(q) == LocalOrigin(port);
      assert ShowNat(q) == LocalOrigin(q)[|LocalPrefix|..];
      assert ShowNat(port) == LocalOrigin(port)[|LocalPrefix|..];
      ShowNatInjective(q, port);
    }
  }

  datatype CorsVerdict = Allow | Deny(message: string)

  const CorsMessage: string := "The CORS policy for this site does not allow access from the specified Origin."

  /** The `origin` callback: a missing or empty origin passes, every origin
      passes in development, and otherwise the origin must be listed. */
  function CorsOrigin(origin: Option<string>, isDevelopment: bool): (v: CorsVerdict)
    ensures v.Allow? <==> origin.None? || origin.value == "" || isDevelopment
                          || origin.value in AllowedOrigins(isDevelopment)
    ensures v.Deny? ==> v.message == CorsMessage
  {
    if origin.None? || origin.value == "" || isDevelopment then Allow
    else if origin.value !in AllowedOrigins(isDevelopment) then Deny(CorsMessage)
    else Allow
  }

  /** In production only the site's own domain (or no origin) passes; in
      development everything does, so the localhost entries never decide
      a request. */
  lemma {:induction false} CorsByMode(origin: Option<string>)
    ensures CorsOrigin(origin, true) == Allow
    ensures origin.Some? && origin.value != "" ==>
              (CorsOrigin(origin, false) == Allow <==> origin.value == ProductionOrigin)
  {
  }

  // ---------------------------------------------------------------------
  // Request log line

  const MaxLogLength: nat := 80
  const LogEllipsis: char := '\U{2026}'

  /** Only paths starting with "/api" are logged. */
  predicate ShouldLog(path: string) {
    StartsWith(path, "/api")
  }

  /** A line longer than 80 characters keeps its first 79 and gains "…". */
  function ClipLogLine(line: string): (r: string)
    ensures |r| <= MaxLogLength
    ensures |line| <= MaxLogLength ==> r == line
    ensures |line| > MaxLogLength ==> |r| == MaxLogLength && r[..79] == line[..79] && r[79] == LogEllipsis
  {
    if |line| > MaxLogLength then line[..79] + [LogEllipsis] else line
  }

  /** Clipping a clipped line changes nothing. */
  lemma {:induction false} ClipLogLineIdempotent(line: string)
    ensures ClipLogLine(ClipLogLine(line)) == ClipLogLine(line)
  {
  }

  /** The line before clipping: "METHOD path status in Nms", then " :: " and
      the JSON body when one was captured and is truthy. */
  function FullLogLine(verb: string, path: string, status: nat, duration: nat,
                       captured: Option<Json>, stringify: Json -> string): string
  {
    var head := verb + " " + path + " " + ShowNat(status) + " in " + ShowNat(duration) + "ms";
    if captured.Some? && Truthy(captured.value) then head + " :: " + stringify(captured.value) else head
  }

  /** The `finish` listener: a line for `/api` paths only, at most 80
      characters, the full line when it fits and its clipped form otherwise. */
  function LogLine(verb: string, path: string, status: nat, duration: nat,
                   captured: Option<Json>, stringify: Json -> string): (r: Option<string>)
    ensures r.Some? <==> ShouldLog(path)
    ensures r.Some? ==> |r.value| <= MaxLogLength
    ensures r.Some? ==> var full := FullLogLine(verb, path, status, duration, captured, stringify);
                        if |full| <= MaxLogLength then r.value == full
                        else |r.value| == MaxLogLength && r.value[..79] == full[..79] && r.value[79] == LogEllipsis
  {
    if ShouldLog(path) then Some(ClipLogLine(FullLogLine(verb, path, status, duration, captured, stringify)))
    else None
  }

  // ---------------------------------------------------------------------
  // Error handler

  /** The fields of a thrown value the handler reads; `None` stands for a
      missing property. */
  datatype HttpError = HttpError(status: Option<int>, statusCode: Option<int>, message: Option<string>)

  const DefaultErrorMessage: string := "Internal Server Error"

  /** `err.status || err.statusCode || 500` and `err.message || "Internal
      Server Error"`; nothing is written when headers were already sent. */
  function ErrorResponse(err: HttpError, headersSent: bool): (r: Option<(int, string)>)
    ensures r.None? <==> headersSent
    ensures r.Some? && err.status.Some? && err.status.value != 0 ==> r.value.0 == err.status.value
    ensures (r.Some? && (err.status.None? || err.status.value == 0) && err.statusCode.Some? && err.statusCode.value != 0)
              ==> r.value.0 == err.statusCode.value
    ensures (r.Some? && (err.status.None? || err.status.value == 0) && (err.statusCode.None? || err.statusCode.value == 0))
              ==> r.value.0 == 500
    ensures r.Some? ==> r.value.0 != 0 && r.value.1 != ""
    ensures r.Some? && err.message.Some? && err.message.value != "" ==> r.value.1 == err.message.value
    ensures r.Some? && (err.message.None? || err.message.value == "") ==> r.value.1 == DefaultErrorMessage
  {
    if headersSent then None
    else
      var status := if err.status.Some? && err.status.value != 0 then err.status.value
                    else if err.statusCode.Some? && err.statusCode.value != 0 then err.statusCode.value
                    else 500;
      var message := if err.message.Some? && err.message.value != "" then err.message.value
                     else DefaultErrorMessage;
      Some((status, message))
  }

  /** `statusCode` is read only when `status` is missing or 0, and the
      response never depends on anything but the three fields read. */
  lemma {:induction false} ErrorStatusPrecedence(err: HttpError, code: Option<int>)
    requires err.status.Some? && err.status.value != 0
    ensures ErrorResponse(err.(statusCode := code), false) == ErrorResponse(err, false)
    ensures ErrorResponse(err, false).Some? && ErrorResponse(err, false).value.0 == err.status.value
  {
  }

  /** A production CORS denial reaches the handler as an error without a
      status, so it is answered 500 with the CORS message. */
  lemma {:induction false} CorsDenialIs500(origin: string)
    requires origin != "" && origin != ProductionOrigin
    ensures CorsOrigin(Some(origin), false).Deny?
    ensures ErrorResponse(HttpError(None, None, Some(CorsOrigin(Some(origin), false).message)), false)
         == Some((500, CorsMessage))
  {
  }
}
