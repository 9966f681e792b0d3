/**
 * The fixed vocabularies of the filters: the HTTP caching headers they write or
 * suppress (Cache-Control, section 14.9 of RFC 2616; Expires, 14.21; Pragma, 14.32;
 * ETag, 14.19), the two cacheability directives of section 14.9.1, and the names
 * of the configuration parameters. Each Java enum is a datatype whose constructors
 * are its constants; the final field each constant carries is a function of it.
 */
module Vocabulary {
  import opened JavaLang

  /** `HTTPCacheHeader`. */
  datatype HttpCacheHeader = CacheControl | Expires | Pragma | ETag
  {
    /** `getName()`. */
    function Name(): string {
      match this
      case CacheControl => "Cache-Control"
      case Expires => "Expires"
      case Pragma => "Pragma"
      case ETag => "ETag"
    }
  }

  /** `HTTPCacheHeader.values()`: the constants in declaration order. */
  const HttpCacheHeaders: seq<HttpCacheHeader> := [CacheControl, Expires, Pragma, ETag]

  /** `Cacheability`. */
  datatype Cacheability = Public | Private
  {
    /** `getValue()`: the Cache-Control directive. */
    function Value(): string {
      match this
      case Public => "public"
      case Private => "private"
    }
  }

  const Cacheabilities: seq<Cacheability> := [Public, Private]

  /** `CacheConfigParameter`. */
  datatype CacheConfigParameter = Static | PrivateParameter | ExpirationTime
  {
    /** `getName()`: the init-parameter key. */
    function Name(): string {
      match this
      case Static => "static"
      case PrivateParameter => "private"
      case ExpirationTime => "expirationTime"
    }
  }

  const CacheConfigParameters: seq<CacheConfigParameter> := [Static, PrivateParameter, ExpirationTime]

  /** The header enum has exactly the four constants, listed once each, and their names are as the protocol spells them. */
  lemma HttpCacheHeadersEnumerated()
    ensures forall h: HttpCacheHeader :: h in HttpCacheHeaders
    ensures forall i, j :: 0 <= i < j < |HttpCacheHeaders| ==> HttpCacheHeaders[i] != HttpCacheHeaders[j]
    ensures seq(|HttpCacheHeaders|, i requires 0 <= i < |HttpCacheHeaders| => HttpCacheHeaders[i].Name())
         == ["Cache-Control", "Expires", "Pragma", "ETag"]
  {
    forall h: HttpCacheHeader
      ensures h in HttpCacheHeaders
    {
      match h
      case CacheControl => assert HttpCacheHeaders[0] == h;
      case Expires => assert HttpCacheHeaders[1] == h;
      case Pragma => assert HttpCacheHeaders[2] == h;
      case ETag => assert HttpCacheHeaders[3] == h;
    }
  }

  /** No two header constants share a name, not even when case is ignored. */
  lemma HttpCacheHeaderNamesDistinctIgnoringCase(a: HttpCacheHeader, b: HttpCacheHeader)
    ensures EqualsIgnoreCase(a.Name(), b.Name()) <==> a == b
  {
    EqualsIgnoreCaseIsEquivalence(a.Name(), a.Name(), a.Name());
  }

  /** The cacheability enum has exactly two constants, PUBLIC then PRIVATE, with distinct lower-case tokens made of letters only. */
  lemma CacheabilityTokens(c: Cacheability, d: Cacheability)
    ensures c in Cacheabilities && |Cacheabilities| == 2 && Cacheabilities[0] != Cacheabilities[1]
    ensures seq(|Cacheabilities|, i requires 0 <= i < |Cacheabilities| => Cacheabilities[i].Value()) == ["public", "private"]
    ensures c.Value() == d.Value() <==> c == d
    ensures forall i :: 0 <= i < |c.Value()| ==> 'a' <= c.Value()[i] <= 'z'
  {
  }

  /** The configuration enum has exactly three constants, each once, in the order STATIC, PRIVATE, EXPIRATION_TIME, with pairwise distinct keys. */
  lemma CacheConfigParameterNames(p: CacheConfigParameter, q: CacheConfigParameter)
    ensures p in CacheConfigParameters && |CacheConfigParameters| == 3
    ensures forall i, j :: 0 <= i < j < |CacheConfigParameters| ==> CacheConfigParameters[i] != CacheConfigParameters[j]
    ensures seq(|CacheConfigParameters|, i requires 0 <= i < |CacheConfigParameters| => CacheConfigParameters[i].Name()) == ["static", "private", "expirationTime"]
    ensures p.Name() == q.Name() <==> p == q
  {
  }
}
