/** The shared-secret gate in front of the sentiment update (`requireServiceKey`). */
module AccessGate {
  import opened Wrappers

  /** The secret the process reads once at start: BACKEND_SERVICE_KEY, or ""
      when that variable is unset. */
  function ConfiguredSecret(env: Option<string>): (secret: string)
    ensures env.None? ==> secret == ""
    ensures env.Some? ==> secret == env.value
  {
    env.GetOr("")
  }

  /** The gate's decision for one request, given the `x-service-key` header
      (`None` when the request does not carry it). A missing header counts as
      "", and an empty secret denies every request: the gate fails closed. */
  function Authorize(secret: string, header: Option<string>): (allowed: bool)
    ensures allowed <==> secret != "" && header == Some(secret)
  {
    var provided := header.GetOr("");
    !(secret == "" || provided != secret)
  }

  /** With no secret configured, no request gets through, whatever it carries. */
  lemma FailsClosed(header: Option<string>)
    ensures !Authorize(ConfiguredSecret(None), header)
    ensures !Authorize("", header)
  {
  }

  /** The comparison is exact: a key differing only in letter case is refused. */
  lemma CaseSensitive()
    ensures Authorize("s3cr3t", Some("s3cr3t"))
    ensures !Authorize("s3cr3t", Some("S3CR3T"))
    ensures !Authorize("s3cr3t", Some("wrong"))
    ensures !Authorize("s3cr3t", None)
  {
  }
}
