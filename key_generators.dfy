/**
 * The demo application's cache-key generators. Each builds a raw key from
 * the handler's mapping annotations, then (in the richer generators) the
 * session id and selected request attributes, and hashes it. Reflection and
 * servlet lookups become input records; the digest is a function parameter.
 *
 * Annotations are read as plain reflection reads them: the `value` and `path`
 * arrays of a request mapping are separate, with no aliasing between them.
 */
module KeyGenerators {
  import opened Wrappers

  // ---------------------------------------------------------------------
  // Inputs

  datatype RequestMethod = GET | HEAD | POST | PUT | PATCH | DELETE | OPTIONS | TRACE

  /** A general request mapping: its `value`, `path` and `method` arrays (`methods` here). */
  datatype RequestMapping = RequestMapping(value: seq<string>, path: seq<string>, methods: seq<RequestMethod>)

  /**
   * The annotations of a handler method: the `value` array of each shortcut
   * mapping that is present, a general request mapping, and the cache names
   * of a caching annotation.
   */
  datatype Handler = Handler(
    getMapping: Option<seq<string>>,
    postMapping: Option<seq<string>>,
    putMapping: Option<seq<string>>,
    deleteMapping: Option<seq<string>>,
    patchMapping: Option<seq<string>>,
    requestMapping: Option<RequestMapping>,
    cacheable: Option<seq<string>>)

  /** The annotations of the controller class. */
  datatype Controller = Controller(requestMapping: Option<RequestMapping>, cacheable: Option<seq<string>>)

  /** The current request: its session id if it has a session, its parameters and its headers. */
  datatype Request = Request(sessionId: Option<string>, parameters: map<string, seq<string>>, headers: map<string, string>)

  /** Per-cache configuration: which parameters and headers join the key; `None` for an unset list. */
  datatype CacheConfig = CacheConfig(parameters: Option<seq<string>>, headers: Option<seq<string>>)

  // ---------------------------------------------------------------------
  // Strings

  /** `Collectors.joining(sep)`. */
  function Join(parts: seq<string>, sep: string): string
    decreases |parts|
  {
    if parts == [] then ""
    else if |parts| == 1 then parts[0]
    else Join(parts[..|parts| - 1], sep) + sep + parts[|parts| - 1]
  }

  /** `Arrays.toString` of a string array. */
  function ArrayToString(values: seq<string>): string {
    "[" + Join(values, ", ") + "]"
  }

  predicate AllNonEmpty(parts: seq<string>) {
    forall i :: 0 <= i < |parts| ==> parts[i] != ""
  }

  // ---------------------------------------------------------------------
  // Endpoint key

  function MethodName(m: RequestMethod): string {
    match m
    case GET => "GET"
    case HEAD => "HEAD"
    case POST => "POST"
    case PUT => "PUT"
    case PATCH => "PATCH"
    case DELETE => "DELETE"
    case OPTIONS => "OPTIONS"
    case TRACE => "TRACE"
  }

  /**
   * `getClassMapping`: empty without a class-level mapping or with an empty
   * `value`; otherwise `value[0]` when it equals `path[0]`, else
   * `path[0] + value[0]`. An empty `path` beside a non-empty `value` throws
   * ArrayIndexOutOfBoundsException.
   */
  function ClassMapping(c: Controller): (r: Result<string>)
    ensures r.Err? <==> c.requestMapping.Some? && |c.requestMapping.value.value| > 0 && |c.requestMapping.value.path| == 0
    ensures r.Err? ==> r.error == IndexOutOfBoundsException
    ensures r.Ok? && c.requestMapping.Some? && |c.requestMapping.value.value| > 0 ==>
      var rm := c.requestMapping.value;
      r.value == if rm.value[0] == rm.path[0] then rm.value[0] else rm.path[0] + rm.value[0]
    ensures c.requestMapping.None? || |c.requestMapping.value.value| == 0 ==> r == Ok("")
  {
    match c.requestMapping
    case None => Ok("")
    case Some(rm) =>
      if |rm.value| == 0 then Ok("")
      else if |rm.path| == 0 then Err(IndexOutOfBoundsException)
      else
        var value := rm.value[0];
        var path := rm.path[0];
        Ok(if value == path then value else path + value)
  }

  /** Whether one of the shortcut mappings (GET, POST, PUT, DELETE, PATCH) is present. */
  predicate HasShortcut(h: Handler) {
    h.getMapping.Some? || h.postMapping.Some? || h.putMapping.Some? || h.deleteMapping.Some? || h.patchMapping.Some?
  }

  /**
   * `getHttpMethod`: the first shortcut mapping present in the order GET,
   * POST, PUT, DELETE, PATCH names the method; failing those, the first
   * method of a general mapping; otherwise "UNKNOWN".
   */
  function HttpMethod(h: Handler): (r: string)
    ensures h.getMapping.Some? ==> r == "GET"
    ensures h.getMapping.None? && h.postMapping.Some? ==> r == "POST"
    ensures h.getMapping.None? && h.postMapping.None? && h.putMapping.Some? ==> r == "PUT"
    ensures h.getMapping.None? && h.postMapping.None? && h.putMapping.None? && h.deleteMapping.Some? ==> r == "DELETE"
    ensures h.getMapping.None? && h.postMapping.None? && h.putMapping.None? && h.deleteMapping.None? && h.patchMapping.Some? ==>
      r == "PATCH"
    ensures !HasShortcut(h) && h.requestMapping.Some? && h.requestMapping.value.methods != [] ==>
      r == MethodName(h.requestMapping.value.methods[0])
    ensures r != [] && ' ' !in r
    ensures r == "UNKNOWN" <==> !HasShortcut(h) && (h.requestMapping.None? || h.requestMapping.value.methods == [])
  {
    if h.getMapping.Some? then "GET"
    else if h.postMapping.Some? then "POST"
    else if h.putMapping.Some? then "PUT"
    else if h.deleteMapping.Some? then "DELETE"
    else if h.patchMapping.Some? then "PATCH"
    else if h.requestMapping.Some? && h.requestMapping.value.methods != [] then
      MethodName(h.requestMapping.value.methods[0])
    else "UNKNOWN"
  }

  /**
   * `extractMappings`: the `value` array of the annotation that names the
   * method, the shortcuts taking priority in the order GET, POST, PUT,
   * DELETE, PATCH; `[""]` with none.
   */
  function ExtractMappings(h: Handler): (r: seq<string>)
    ensures h.getMapping.Some? ==> r == h.getMapping.value
    ensures h.getMapping.None? && h.postMapping.Some? ==> r == h.postMapping.value
    ensures h.getMapping.None? && h.postMapping.None? && h.putMapping.Some? ==> r == h.putMapping.value
    ensures h.getMapping.None? && h.postMapping.None? && h.putMapping.None? && h.deleteMapping.Some? ==>
      r == h.deleteMapping.value
    ensures h.getMapping.None? && h.postMapping.None? && h.putMapping.None? && h.deleteMapping.None? && h.patchMapping.Some? ==>
      r == h.patchMapping.value
    ensures !HasShortcut(h) && h.requestMapping.Some? ==> r == h.requestMapping.value.value
    ensures !HasShortcut(h) && h.requestMapping.None? ==> r == [""]
  {
    if h.getMapping.Some? then h.getMapping.value
    else if h.postMapping.Some? then h.postMapping.value
    else if h.putMapping.Some? then h.putMapping.value
    else if h.deleteMapping.Some? then h.deleteMapping.value
    else if h.patchMapping.Some? then h.patchMapping.value
    else if h.requestMapping.Some? then h.requestMapping.value.value
    else [""]
  }

  /** `getMethodMapping`: the first extracted path, empty when there is none. */
  function MethodMapping(h: Handler): (r: string)
    ensures ExtractMappings(h) != [] ==> r == ExtractMappings(h)[0]
    ensures ExtractMappings(h) == [] ==> r == ""
  {
    var mappings := ExtractMappings(h);
    if |mappings| > 0 then mappings[0] else ""
  }

  /** `generateRaw` of the endpoint generator: method, a space, class mapping, method mapping. */
  function EndpointRaw(c: Controller, h: Handler): (r: Result<string>)
    ensures r.Err? <==> ClassMapping(c).Err?
    ensures r.Ok? ==> r.value == HttpMethod(h) + " " + ClassMapping(c).value + MethodMapping(h)
  {
    match ClassMapping(c)
    case Err(e) => Err(e)
    case Ok(classMapping) => Ok(HttpMethod(h) + " " + classMapping + MethodMapping(h))
  }

  /** `generate`: the digest of the raw key; the digest function is a parameter. */
  function Digest(hash: string -> string, raw: Result<string>): (r: Result<string>)
    ensures r.Ok? <==> raw.Ok?
    ensures r.Ok? ==> r.value == hash(raw.value)
    ensures r.Err? ==> r.error == raw.error
  {
    match raw
    case Err(e) => Err(e)
    case Ok(k) => Ok(hash(k))
  }

  /**
   * The endpoint generator's `generate`: the digest of the method, a space,
   * the class mapping and the method mapping; it throws exactly when the
   * class mapping does.
   */
  function EndpointKey(hash: string -> string, c: Controller, h: Handler): (r: Result<string>)
    ensures r.Err? <==> ClassMapping(c).Err?
    ensures r.Err? ==> r.error == IndexOutOfBoundsException
    ensures r.Ok? ==> r.value == hash(HttpMethod(h) + " " + ClassMapping(c).value + MethodMapping(h))
  {
    Digest(hash, EndpointRaw(c, h))
  }

  // ---------------------------------------------------------------------
  // Session-aware key

  /** `getSessionId`: the id of the current request's existing session, else "NoSession". */
  function SessionId(context: Option<Request>): (r: string)
    ensures context.Some? && context.value.sessionId.Some? ==> r == context.value.sessionId.value
    ensures context.None? || context.value.sessionId.None? ==> r == "NoSession"
  {
    if context.Some? && context.value.sessionId.Some? then context.value.sessionId.value else "NoSession"
  }

  /** The endpoint raw key, a space, and the session part. */
  function SessionRaw(c: Controller, h: Handler, context: Option<Request>): (r: Result<string>)
    ensures r.Err? <==> EndpointRaw(c, h).Err?
    ensures r.Ok? ==> r.value == EndpointRaw(c, h).value + " " + SessionId(context)
  {
    match EndpointRaw(c, h)
    case Err(e) => Err(e)
    case Ok(endpointKey) => Ok(endpointKey + " " + SessionId(context))
  }

  /** The session-aware generator's `generate`: the endpoint key's text and the session id, digested. */
  function SessionKey(hash: string -> string, c: Controller, h: Handler, context: Option<Request>): (r: Result<string>)
    ensures r.Err? <==> ClassMapping(c).Err?
    ensures r.Err? ==> r.error == IndexOutOfBoundsException
    ensures r.Ok? ==>
      r.value == hash(HttpMethod(h) + " " + ClassMapping(c).value + MethodMapping(h) + " " + SessionId(context))
  {
    Digest(hash, SessionRaw(c, h, context))
  }

  // ---------------------------------------------------------------------
  // Attributes-aware key

  /**
   * `filter`: the configured names that are available; how often each
   * occurs is given by `PresentCount`, the order by `PresentCons`.
   */
  function Present(names: seq<string>, available: set<string>): (r: seq<string>)
    ensures |r| <= |names|
    ensures forall x :: x in r <==> x in names && x in available
    decreases |names|
  {
    if names == [] then []
    else
      var init := names[..|names| - 1];
      var name := names[|names| - 1];
      assert names == init + [name];
      var rest := Present(init, available);
      if name in available then rest + [name] else rest
  }

  /**
   * `name=[v1, v2, ...]` for each configured parameter the request carries,
   * one per present name and in the same order (see `ParameterEntriesCons`).
   */
  function ParameterEntries(names: seq<string>, parameters: map<string, seq<string>>): (r: seq<string>)
    ensures |r| == |Present(names, parameters.Keys)|
    ensures forall i :: 0 <= i < |r| ==>
      var name := Present(names, parameters.Keys)[i];
      name in names && name in parameters && r[i] == name + "=" + ArrayToString(parameters[name])
    ensures AllNonEmpty(r)
  {
    var present := Present(names, parameters.Keys);
    seq(|present|, i requires 0 <= i < |present| => present[i] + "=" + ArrayToString(parameters[present[i]]))
  }

  /**
   * `name=value` for each configured header the request carries, one per
   * present name and in the same order (see `HeaderEntriesCons`).
   */
  function HeaderEntries(names: seq<string>, headers: map<string, string>): (r: seq<string>)
    ensures |r| == |Present(names, headers.Keys)|
    ensures forall i :: 0 <= i < |r| ==>
      var name := Present(names, headers.Keys)[i];
      name in names && name in headers && r[i] == name + "=" + headers[name]
    ensures AllNonEmpty(r)
  {
    var present := Present(names, headers.Keys);
    seq(|present|, i requires 0 <= i < |present| => present[i] + "=" + headers[present[i]])
  }

  /** The parameter part, or the header part: the entries joined by ", ", empty for an unset list. */
  function Part(entries: Option<seq<string>>): string {
    if entries.None? then "" else Join(entries.value, ", ")
  }

  /** Parameters then headers, with ", " between them only when both are non-empty. */
  function Combine(params: string, headers: string): string {
    if headers == "" then params
    else params + (if params == "" then "" else ", ") + headers
  }

  /** The entries of the configured parameters, then of the configured headers; an unset list contributes none. */
  function AttributeEntries(request: Request, config: CacheConfig): seq<string> {
    (if config.parameters.None? then [] else ParameterEntries(config.parameters.value, request.parameters))
    + (if config.headers.None? then [] else HeaderEntries(config.headers.value, request.headers))
  }

  /**
   * `getRequestAttributes`: "NoAttributes" without a current request; with
   * one, a missing configuration throws NullPointerException, otherwise the
   * combined parameter and header parts, which is every present parameter
   * entry, then every present header entry, joined by ", ".
   */
  function RequestAttributes(context: Option<Request>, config: Option<CacheConfig>): (r: Result<string>)
    ensures context.None? ==> r == Ok("NoAttributes")
    ensures context.Some? && config.None? ==> r == Err(NullPointerException)
    ensures context.Some? && config.Some? ==> r == Ok(Join(AttributeEntries(context.value, config.value), ", "))
  {
    if context.None? then Ok("NoAttributes")
    else if config.None? then Err(NullPointerException)
    else
      var request := context.value;
      var paramEntries :=
        if config.value.parameters.None? then [] else ParameterEntries(config.value.parameters.value, request.parameters);
      var headerEntries :=
        if config.value.headers.None? then [] else HeaderEntries(config.value.headers.value, request.headers);
      var params := if config.value.parameters.None? then None else Some(paramEntries);
      var headers := if config.value.headers.None? then None else Some(headerEntries);
      assert Part(params) == Join(paramEntries, ", ") && Part(headers) == Join(headerEntries, ", ");
      CombineIsJoin(paramEntries, headerEntries);
      Ok(Combine(Part(params), Part(headers)))
  }

  /**
   * `getCacheName`: the caching annotation of the method, else of the class;
   * its first cache name, else "defaultCache".
   */
  function CacheName(c: Controller, h: Handler): (r: string)
    ensures h.cacheable.Some? && h.cacheable.value != [] ==> r == h.cacheable.value[0]
    ensures h.cacheable.None? && c.cacheable.Some? && c.cacheable.value != [] ==> r == c.cacheable.value[0]
    ensures (h.cacheable.Some? && h.cacheable.value == []) || (h.cacheable.None? && (c.cacheable.None? || c.cacheable.value == [])) ==>
      r == "defaultCache"
  {
    var cacheable := if h.cacheable.Some? then h.cacheable else c.cacheable;
    if cacheable.Some? && |cacheable.value| > 0 then cacheable.value[0] else "defaultCache"
  }

  /** The session raw key, " Attributes:", and the attribute string of the cache's configuration. */
  function AttributesRaw(caches: map<string, CacheConfig>, c: Controller, h: Handler, context: Option<Request>): (r: Result<string>)
    ensures SessionRaw(c, h, context).Err? ==> r == SessionRaw(c, h, context)
    ensures var config := if CacheName(c, h) in caches then Some(caches[CacheName(c, h)]) else None;
      SessionRaw(c, h, context).Ok? ==>
        && (r.Ok? <==> RequestAttributes(context, config).Ok?)
        && (r.Ok? ==> r.value == SessionRaw(c, h, context).value + " Attributes:" + RequestAttributes(context, config).value)
  {
    match SessionRaw(c, h, context)
    case Err(e) => Err(e)
    case Ok(baseKey) =>
      var name := CacheName(c, h);
      var config := if name in caches then Some(caches[name]) else None;
      match RequestAttributes(context, config)
      case Err(e) => Err(e)
      case Ok(attributes) => Ok(baseKey + " Attributes:" + attributes)
  }

  /**
   * The attributes-aware generator's `generate`: the session-aware key's
   * text, " Attributes:" and the attribute string, digested. It throws the
   * class mapping's error, or NullPointerException exactly when a request is
   * current and the cache has no configuration.
   */
  function AttributesKey(hash: string -> string, caches: map<string, CacheConfig>, c: Controller, h: Handler,
                         context: Option<Request>): (r: Result<string>)
    ensures ClassMapping(c).Err? ==> r == Err(IndexOutOfBoundsException)
    ensures r == Err(NullPointerException) <==> ClassMapping(c).Ok? && context.Some? && CacheName(c, h) !in caches
    ensures r.Ok? <==> ClassMapping(c).Ok? && (context.None? || CacheName(c, h) in caches)
    ensures r.Ok? && context.None? ==>
      r.value == hash(HttpMethod(h) + " " + ClassMapping(c).value + MethodMapping(h) + " " + "NoSession"
                      + " Attributes:" + "NoAttributes")
    ensures r.Ok? && context.Some? ==>
      r.value == hash(HttpMethod(h) + " " + ClassMapping(c).value + MethodMapping(h) + " " + SessionId(context)
                      + " Attributes:" + Join(AttributeEntries(context.value, caches[CacheName(c, h)]), ", "))
  {
    Digest(hash, AttributesRaw(caches, c, h, context))
  }

  // ---------------------------------------------------------------------
  // Properties

  lemma {:induction false} JoinNonEmpty(parts: seq<string>, sep: string)
    requires AllNonEmpty(parts) && parts != []
    ensures Join(parts, sep) != ""
    decreases |parts|
  {
    if |parts| > 1 {
      JoinNonEmpty(parts[..|parts| - 1], sep);
    }
  }

  /** Joining two non-empty lists is joining each and putting one separator between them. */
  lemma {:induction false} JoinConcat(a: seq<string>, b: seq<string>, sep: string)
    requires a != [] && b != []
    ensures Join(a + b, sep) == Join(a, sep) + sep + Join(b, sep)
    decreases |b|
  {
    var ab := a + b;
    if |b| == 1 {
      assert ab[..|ab| - 1] == a;
    } else {
      var b' := b[..|b| - 1];
      assert ab[..|ab| - 1] == a + b';
      JoinConcat(a, b', sep);
    }
  }

  /**
   * The combined attribute string is the join, by ", ", of the parameter
   * entries followed by the header entries: the separator between the two
   * parts appears exactly when both are non-empty.
   */
  lemma CombineIsJoin(params: seq<string>, headers: seq<string>)
    requires AllNonEmpty(params) && AllNonEmpty(headers)
    ensures Combine(Join(params, ", "), Join(headers, ", ")) == Join(params + headers, ", ")
  {
    if params == [] {
      assert params + headers == headers;
      if headers != [] {
        JoinNonEmpty(headers, ", ");
      }
    } else if headers == [] {
      assert params + headers == params;
    } else {
      JoinNonEmpty(params, ", ");
      JoinNonEmpty(headers, ", ");
      JoinConcat(params, headers, ", ");
    }
  }

  /** A space-free prefix ending at the first space is determined by the string. */
  lemma SpacePrefix(a: string, b: string, c: string, d: string)
    requires ' ' !in a && ' ' !in c
    requires a + " " + b == c + " " + d
    ensures a == c
  {
    var s := a + " " + b;
    assert forall i :: 0 <= i < |a| ==> s[i] == a[i] != ' ';
    assert forall i :: 0 <= i < |c| ==> s[i] == c[i] != ' ';
    assert s[|a|] == ' ' && s[|c|] == ' ';
    assert |a| == |c|;
    assert a == s[..|a|] == c;
  }

  /** Handlers with different HTTP methods never share an endpoint raw key. */
  lemma EndpointRawSeparatesMethods(c1: Controller, h1: Handler, c2: Controller, h2: Handler)
    requires EndpointRaw(c1, h1).Ok? && EndpointRaw(c2, h2).Ok?
    requires HttpMethod(h1) != HttpMethod(h2)
    ensures EndpointRaw(c1, h1) != EndpointRaw(c2, h2)
  {
    var rest1 := ClassMapping(c1).value + MethodMapping(h1);
    var rest2 := ClassMapping(c2).value + MethodMapping(h2);
    assert EndpointRaw(c1, h1).value == HttpMethod(h1) + " " + rest1;
    assert EndpointRaw(c2, h2).value == HttpMethod(h2) + " " + rest2;
    if EndpointRaw(c1, h1) == EndpointRaw(c2, h2) {
      SpacePrefix(HttpMethod(h1), rest1, HttpMethod(h2), rest2);
    }
  }

  /** For one endpoint, different session parts give different session-aware raw keys. */
  lemma SessionRawSeparatesSessions(c: Controller, h: Handler, context1: Option<Request>, context2: Option<Request>)
    requires EndpointRaw(c, h).Ok?
    requires SessionId(context1) != SessionId(context2)
    ensures SessionRaw(c, h, context1) != SessionRaw(c, h, context2)
  {
    var prefix := EndpointRaw(c, h).value + " ";
    var k1 := prefix + SessionId(context1);
    var k2 := prefix + SessionId(context2);
    assert k1[|prefix|..] == SessionId(context1);
    assert k2[|prefix|..] == SessionId(context2);
  }

  /** `filter` keeps the configured order: the first name comes first when it is present. */
  lemma {:induction false} PresentCons(names: seq<string>, available: set<string>)
    requires names != []
    ensures Present(names, available)
      == (if names[0] in available then [names[0]] else []) + Present(names[1..], available)
    decreases |names|
  {
    if |names| > 1 {
      var init := names[..|names| - 1];
      var last := names[|names| - 1];
      var tail := names[1..];
      var first := if names[0] in available then [names[0]] else [];
      var final := if last in available then [last] else [];
      PresentCons(init, available);
      assert init[0] == names[0];
      assert tail[..|tail| - 1] == init[1..] && tail[|tail| - 1] == last;
      assert Present(names, available) == Present(init, available) + final;
      assert Present(tail, available) == Present(init[1..], available) + final;
      assert Present(init, available) == first + Present(init[1..], available);
    }
  }

  /** An available name is kept as often as it is configured; any other name is dropped. */
  lemma {:induction false} PresentCount(names: seq<string>, available: set<string>, x: string)
    ensures multiset(Present(names, available))[x] == if x in available then multiset(names)[x] else 0
    decreases |names|
  {
    if names != [] {
      var init := names[..|names| - 1];
      var last := names[|names| - 1];
      assert names == init + [last];
      PresentCount(init, available, x);
    }
  }

  /** The parameter entries follow the configured order: the first name's entry, if present, comes first. */
  lemma ParameterEntriesCons(names: seq<string>, parameters: map<string, seq<string>>)
    requires names != []
    ensures ParameterEntries(names, parameters)
      == (if names[0] in parameters then [names[0] + "=" + ArrayToString(parameters[names[0]])] else [])
         + ParameterEntries(names[1..], parameters)
  {
    PresentCons(names, parameters.Keys);
    var all := ParameterEntries(names, parameters);
    var head := if names[0] in parameters then [names[0] + "=" + ArrayToString(parameters[names[0]])] else [];
    var rest := ParameterEntries(names[1..], parameters);
    assert |all| == |head| + |rest|;
    forall i | 0 <= i < |all| ensures all[i] == (head + rest)[i] {
      if i >= |head| {
        assert Present(names, parameters.Keys)[i] == Present(names[1..], parameters.Keys)[i - |head|];
      }
    }
  }

  /** The header entries follow the configured order: the first name's entry, if present, comes first. */
  lemma HeaderEntriesCons(names: seq<string>, headers: map<string, string>)
    requires names != []
    ensures HeaderEntries(names, headers)
      == (if names[0] in headers then [names[0] + "=" + headers[names[0]]] else []) + HeaderEntries(names[1..], headers)
  {
    PresentCons(names, headers.Keys);
    var all := HeaderEntries(names, headers);
    var head := if names[0] in headers then [names[0] + "=" + headers[names[0]]] else [];
    var rest := HeaderEntries(names[1..], headers);
    assert |all| == |head| + |rest|;
    forall i | 0 <= i < |all| ensures all[i] == (head + rest)[i] {
      if i >= |head| {
        assert Present(names, headers.Keys)[i] == Present(names[1..], headers.Keys)[i - |head|];
      }
    }
  }

  /**
   * A digest that tells every two texts apart. `md5Hex` has a fixed-length
   * output and so cannot be this on all texts; the lemmas that assume it
   * stand for the absence of a collision between the texts they compare.
   */
  ghost predicate Injective(hash: string -> string) {
    forall a, b :: hash(a) == hash(b) ==> a == b
  }

  /** With a digest that tells texts apart, handlers with different HTTP methods never share an endpoint key. */
  lemma EndpointKeySeparatesMethods(hash: string -> string, c1: Controller, h1: Handler, c2: Controller, h2: Handler)
    requires Injective(hash)
    requires EndpointKey(hash, c1, h1).Ok? && EndpointKey(hash, c2, h2).Ok?
    requires HttpMethod(h1) != HttpMethod(h2)
    ensures EndpointKey(hash, c1, h1) != EndpointKey(hash, c2, h2)
  {
    EndpointRawSeparatesMethods(c1, h1, c2, h2);
  }

  /** With a digest that tells texts apart, different sessions on one endpoint never share a session-aware key. */
  lemma SessionKeySeparatesSessions(hash: string -> string, c: Controller, h: Handler,
                                    context1: Option<Request>, context2: Option<Request>)
    requires Injective(hash)
    requires EndpointKey(hash, c, h).Ok?
    requires SessionId(context1) != SessionId(context2)
    ensures SessionKey(hash, c, h, context1) != SessionKey(hash, c, h, context2)
  {
    SessionRawSeparatesSessions(c, h, context1, context2);
  }

  /**
   * With a digest that tells texts apart, two requests in one session whose
   * attribute strings differ never share an attributes-aware key.
   */
  lemma AttributesKeySeparatesAttributes(hash: string -> string, caches: map<string, CacheConfig>, c: Controller, h: Handler,
                                         request1: Request, request2: Request)
    requires Injective(hash)
    requires ClassMapping(c).Ok? && CacheName(c, h) in caches
    requires request1.sessionId == request2.sessionId
    requires Join(AttributeEntries(request1, caches[CacheName(c, h)]), ", ")
          != Join(AttributeEntries(request2, caches[CacheName(c, h)]), ", ")
    ensures AttributesKey(hash, caches, c, h, Some(request1)) != AttributesKey(hash, caches, c, h, Some(request2))
  {
    var config := caches[CacheName(c, h)];
    var prefix := SessionRaw(c, h, Some(request1)).value + " Attributes:";
    var a1 := Join(AttributeEntries(request1, config), ", ");
    var a2 := Join(AttributeEntries(request2, config), ", ");
    assert SessionRaw(c, h, Some(request2)) == SessionRaw(c, h, Some(request1));
    assert AttributesRaw(caches, c, h, Some(request1)) == Ok(prefix + a1);
    assert AttributesRaw(caches, c, h, Some(request2)) == Ok(prefix + a2);
    assert (prefix + a1)[|prefix|..] == a1;
    assert (prefix + a2)[|prefix|..] == a2;
  }

  // ---------------------------------------------------------------------
  // The demo controller

  /** The demo controller: class mapping with `value` and `path` both "/api". */
  const DemoController := Controller(Some(RequestMapping(["/api"], ["/api"], [])), None)

  function GetHandler(path: string, cacheName: string): Handler {
    Handler(Some([path]), None, None, None, None, None, Some([cacheName]))
  }

  /** Its `endpoint` handler: GET "/endpoint", cached in "endpoint". */
  lemma DemoEndpointKey()
    ensures EndpointRaw(DemoController, GetHandler("/endpoint", "endpoint")) == Ok("GET /api/endpoint")
    ensures CacheName(DemoController, GetHandler("/endpoint", "endpoint")) == "endpoint"
  {
    assert "GET" + " " + "/api" + "/endpoint" == "GET /api/endpoint";
  }

  /** Outside a request, the session part is "NoSession". */
  lemma DemoSessionKeyOutsideRequest()
    ensures SessionRaw(DemoController, GetHandler("/session", "withSession"), None) == Ok("GET /api/session NoSession")
  {
    var h := GetHandler("/session", "withSession");
    assert "GET" + " " + "/api" + "/session" == "GET /api/session";
    assert EndpointRaw(DemoController, h) == Ok("GET /api/session");
    assert "GET /api/session" + " " + "NoSession" == "GET /api/session NoSession";
  }

  /** Outside a request, the attribute string is "NoAttributes", whatever the cache configuration. */
  lemma DemoAttributesKeyOutsideRequest(caches: map<string, CacheConfig>)
    ensures AttributesRaw(caches, DemoController, GetHandler("/attributes1", "attributes1"), None)
      == Ok("GET /api/attributes1 NoSession Attributes:NoAttributes")
  {
    var h := GetHandler("/attributes1", "attributes1");
    assert "GET" + " " + "/api" + "/attributes1" == "GET /api/attributes1";
    assert EndpointRaw(DemoController, h) == Ok("GET /api/attributes1");
    assert "GET /api/attributes1" + " " + "NoSession" == "GET /api/attributes1 NoSession";
    assert SessionRaw(DemoController, h, None) == Ok("GET /api/attributes1 NoSession");
    assert "GET /api/attributes1 NoSession" + " Attributes:" + "NoAttributes"
      == "GET /api/attributes1 NoSession Attributes:NoAttributes";
  }

  /** A class mapping that sets only `value` makes every key of that controller throw. */
  lemma ValueOnlyClassMappingThrows(h: Handler)
    ensures EndpointRaw(Controller(Some(RequestMapping(["/api"], [], [])), None), h) == Err(IndexOutOfBoundsException)
  {
  }
}
