/**
  A presigned URL, kept opaque: the model records what was asked of the
  signer (bucket, key, HTTP verb, lifetime, user metadata), not the signed
  text it returns.
*/
module Presign {
  import opened Wrappers

  /** Lifetime, in seconds, of every presigned URL both lambdas mint. */
  const ExpiresIn: nat := 60

  datatype Verb = Get | Put

  /** User metadata attached to an upload: the caller's username, email and subject. */
  datatype Metadata = Metadata(username: string, email: string, sub: string)

  datatype PresignedUrl = PresignedUrl(
    bucket: string,
    key: string,
    verb: Verb,
    expiresIn: nat,
    metadata: Option<Metadata>)

  /** `presigned_url(:get, expires_in: 60)` on bucket/key. */
  function PresignGet(bucket: string, key: string): PresignedUrl
  {
    PresignedUrl(bucket, key, Get, ExpiresIn, None)
  }

  /** `presigned_url(:put, expires_in: 60, metadata: metadata)` on bucket/key. */
  function PresignPut(bucket: string, key: string, metadata: Metadata): PresignedUrl
  {
    PresignedUrl(bucket, key, Put, ExpiresIn, Some(metadata))
  }
}
