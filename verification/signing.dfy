/**
 * Signed request URLs, shared by the three fetch scripts:
 * `f"{base}?{query}&signing={md5(query + key)}"`.
 * The MD5 digest is a parameter: the model says nothing about its internals.
 */
module Signing {

  import opened Strings

  /** One `key=value` field of a query string. */
  function Field(key: string, value: string): string
  {
    key + "=" + value
  }

  /** The signature the API expects: the digest of the query followed by the key. */
  function Signature(md5: string -> string, query: string, key: string): string
  {
    md5(query + key)
  }

  /** The name of the parameter that carries the signature, with its `=`. */
  const SigningParam: string := "signing="

  /** The request URL: endpoint, query, and the signature as the last parameter. */
  function SignedUrl(md5: string -> string, base: string, query: string, key: string): (url: string)
    ensures |url| == |base| + |query| + 10 + |Signature(md5, query, key)|
  {
    base + "?" + (query + ("&" + (SigningParam + Signature(md5, query, key))))
  }

  /** The part of a URL after its first `?`. */
  function QueryOf(url: string): string
  {
    var i := IndexOf(url, '?');
    if i == |url| then "" else url[i + 1..]
  }

  /** Splitting the signed URL's query at `&` yields the request's parts in order,
      then the signature, provided no part (and no digest) contains `&` and the
      endpoint has no `?`. */
  lemma SignedUrlFields(md5: string -> string, base: string, parts: seq<string>, key: string)
    requires '?' !in base
    requires |parts| >= 1 && forall i :: 0 <= i < |parts| ==> '&' !in parts[i]
    requires '&' !in Signature(md5, Join(parts, '&'), key)
    ensures Split(QueryOf(SignedUrl(md5, base, Join(parts, '&'), key)), '&')
            == parts + [SigningParam + Signature(md5, Join(parts, '&'), key)]
  {
    var query := Join(parts, '&');
    var field := SigningParam + Signature(md5, query, key);
    var rest := Join(parts + [field], '&');
    assert SignedUrl(md5, base, query, key) == base + "?" + rest by {
      JoinSnoc(parts, field, '&');
    }
    QueryOfAfter(base, rest);
    FieldsWithoutSeparator(parts, Signature(md5, query, key));
    SplitJoin(parts + [field], '&');
  }

  lemma FieldsWithoutSeparator(parts: seq<string>, sig: string)
    requires forall i :: 0 <= i < |parts| ==> '&' !in parts[i]
    requires '&' !in sig
    ensures forall i :: 0 <= i < |parts + [SigningParam + sig]| ==> '&' !in (parts + [SigningParam + sig])[i]
  {
    assert '&' !in SigningParam;
  }

  /** The query of a URL is everything after the endpoint's `?`. */
  lemma QueryOfAfter(base: string, rest: string)
    requires '?' !in base
    ensures QueryOf(base + "?" + rest) == rest
  {
    var url := base + "?" + rest;
    assert forall k :: 0 <= k < |base| ==> url[k] == base[k];
    assert url[|base|] == '?';
    assert IndexOf(url, '?') == |base|;
    assert url[|base| + 1..] == rest;
  }

  /** When the digest has a fixed length (32 hex digits for MD5), a URL for a given
      endpoint determines the query it was built from. */
  lemma SignedUrlDeterminesQuery(md5: string -> string, base: string, q1: string, q2: string, key: string)
    requires forall x :: |md5(x)| == 32
    requires SignedUrl(md5, base, q1, key) == SignedUrl(md5, base, q2, key)
    ensures q1 == q2
  {
    var u := SignedUrl(md5, base, q1, key);
    assert |q1| == |q2|;
    assert q1 == u[|base| + 1..|base| + 1 + |q1|];
    assert q2 == u[|base| + 1..|base| + 1 + |q2|];
  }
}
