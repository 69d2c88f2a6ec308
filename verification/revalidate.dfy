/**
 * The on-demand revalidation webhook (`POST` on the revalidate route). It
 * refuses to work without a configured secret, accepts the secret either as
 * the `secret` query parameter or as a bearer token, and then invalidates the
 * broad `posts` and `categories` tags plus `post:<slug>` when the payload
 * names a post.
 */
module Revalidate {
  import opened Wrappers
  import JsText

  /** A JSON value from the request body; numbers are integers in this model. */
  datatype Json =
    | JNull
    | JBool(b: bool)
    | JNumber(n: int)
    | JString(s: string)
    | JArray(items: seq<Json>)
    | JObject(members: map<string, Json>)

  /** JavaScript truthiness of a value that may be `undefined` (`None`). */
  predicate Truthy(v: Option<Json>) {
    match v
    case None => false
    case Some(JNull) => false
    case Some(JBool(b)) => b
    case Some(JNumber(n)) => n != 0
    case Some(JString(s)) => s != ""
    case Some(JArray(_)) => true
    case Some(JObject(_)) => true
  }

  /** `v?.key`: an object's member; `undefined` for a missing key or anything but an object. */
  function Member(v: Option<Json>, key: string): Option<Json> {
    if v.Some? && v.value.JObject? && key in v.value.members then Some(v.value.members[key]) else None
  }

  /**
   * The six places a webhook may carry the slug, in the order tried:
   * `slug.current`, `slug`, `body.slug.current`, `body.slug`,
   * `document.slug.current`, `document.slug`.
   */
  function SlugCandidates(payload: Option<Json>): (r: seq<Option<Json>>)
    ensures |r| == 6
    ensures forall i :: 0 <= i < |r| && r[i].Some? ==> payload.Some? && payload.value.JObject?
  {
    var body := Member(payload, "body");
    var document := Member(payload, "document");
    [ Member(Member(payload, "slug"), "current"), Member(payload, "slug"),
      Member(Member(body, "slug"), "current"), Member(body, "slug"),
      Member(Member(document, "slug"), "current"), Member(document, "slug") ]
  }

  /** `a || b || ... || undefined`: the first truthy value, else `undefined`. */
  function FirstTruthy(vs: seq<Option<Json>>): (r: Option<Json>)
    ensures r.None? <==> forall i :: 0 <= i < |vs| ==> !Truthy(vs[i])
    ensures r.Some? ==> Truthy(r) && exists i :: 0 <= i < |vs| && vs[i] == r && forall j :: 0 <= j < i ==> !Truthy(vs[j])
  {
    if vs == [] then None
    else if Truthy(vs[0]) then vs[0]
    else
      var r := FirstTruthy(vs[1..]);
      assert forall i :: 1 <= i < |vs| ==> vs[i] == vs[1..][i - 1];
      r
  }

  /** The chain stops at the first truthy candidate. */
  lemma FirstTruthyAt(vs: seq<Option<Json>>, k: int)
    requires 0 <= k < |vs| && Truthy(vs[k])
    requires forall i :: 0 <= i < k ==> !Truthy(vs[i])
    ensures FirstTruthy(vs) == vs[k]
  {
    var r := FirstTruthy(vs);
    var i :| 0 <= i < |vs| && vs[i] == r && forall j :: 0 <= j < i ==> !Truthy(vs[j]);
    assert !(i < k) && !(k < i);
  }

  /** The tag of the post the payload names: its slug when the chain ends on a non-empty string. */
  function PostTag(payload: Option<Json>): (tag: Option<string>)
    ensures var v := FirstTruthy(SlugCandidates(payload));
            tag.Some? <==> v.Some? && v.value.JString? && v.value.s != ""
    ensures var v := FirstTruthy(SlugCandidates(payload));
            tag.Some? ==> tag.value == "post:" + v.value.s
  {
    match FirstTruthy(SlugCandidates(payload))
    case Some(JString(s)) => if |s| > 0 then Some("post:" + s) else None
    case _ => None
  }

  /** `Set.add`: appended unless already present, so insertion order is kept and nothing repeats. */
  function AddTag(tags: seq<string>, tag: string): (r: seq<string>)
    ensures tag in r
    ensures r == tags || r == tags + [tag]
    ensures tag in tags ==> r == tags
    ensures Distinct(tags) ==> Distinct(r)
  {
    if tag in tags then tags else tags + [tag]
  }

  predicate Distinct(tags: seq<string>) {
    forall i, j :: 0 <= i < j < |tags| ==> tags[i] != tags[j]
  }

  /** `Array.from(tags)` after the adds: the two broad tags, then the post's tag if any. */
  function RevalidatedTags(payload: Option<Json>): (r: seq<string>)
    ensures 2 <= |r| <= 3 && r[0] == "posts" && r[1] == "categories"
    ensures |r| == 3 <==> PostTag(payload).Some?
    ensures |r| == 3 ==> r[2] == PostTag(payload).value
    ensures Distinct(r)
  {
    var broad := AddTag(AddTag([], "posts"), "categories");
    match PostTag(payload)
    case Some(t) =>
      assert t[4] == ':' && "posts"[4] == 's';
      AddTag(broad, t)
    case None => broad
  }

  /** The webhook's request: the `authorization` header, the `secret` query parameter, the parsed body (`None` when missing or not JSON). */
  datatype Request = Request(authorization: Option<string>, querySecret: Option<string>, body: Option<Json>)

  /** `{ ok: false, message }` or `{ ok: true, revalidated }`. */
  datatype ResponseBody = Failure(message: string) | Success(revalidated: seq<string>)

  datatype Response = Response(status: int, body: ResponseBody)

  const SecretNotSet: string := "SANITY_REVALIDATE_SECRET not set"

  /** `unauthorized()`: status 401 with the default message. */
  function Unauthorized(): (r: Response)
    ensures r.status == 401 && r.body.Failure?
  {
    Response(401, Failure("Unauthorized"))
  }

  /** What follows `"Bearer "` in the header, when the header starts with it. */
  function BearerToken(authorization: Option<string>): (r: Option<string>)
    ensures r.Some? <==> authorization.Some? && JsText.StartsWith(authorization.value, "Bearer ")
    ensures r.Some? ==> authorization.value == "Bearer " + r.value
  {
    if authorization.Some? && JsText.StartsWith(authorization.value, "Bearer ") then Some(authorization.value[7..])
    else None
  }

  /** The handler's answer as a value. */
  function Decide(secret: Option<string>, req: Request): (resp: Response)
    ensures secret.None? || secret.value == "" ==> resp == Response(500, Failure(SecretNotSet))
    ensures secret.Some? && secret.value != "" ==>
              var accepted := || req.querySecret == Some(secret.value)
                              || (&& req.authorization.Some?
                                  && JsText.StartsWith(req.authorization.value, "Bearer ")
                                  && req.authorization.value[7..] == secret.value);
              && (resp.status == 200 <==> accepted)
              && (!accepted ==> resp == Response(401, Failure("Unauthorized")))
    ensures resp.body.Success? <==> resp.status == 200
    ensures resp.body.Success? ==> resp.body.revalidated == RevalidatedTags(req.body)
  {
    if secret.None? || secret.value == "" then Response(500, Failure(SecretNotSet))
    else if req.querySecret != Some(secret.value) && BearerToken(req.authorization) != Some(secret.value) then
      Unauthorized()
    else Response(200, Success(RevalidatedTags(req.body)))
  }

  /** The cache behind `revalidateTag`: the tags invalidated so far, in call order. */
  class TagCache {
    ghost var invalidated: seq<string>

    constructor ()
      ensures invalidated == []
    {
      invalidated := [];
    }

    method RevalidateTag(tag: string)
      modifies this
      ensures invalidated == old(invalidated) + [tag]
    {
      invalidated := invalidated + [tag];
    }
  }

  /** The `Set` filled by `add`: the two broad tags, then the post's tag when the slug is a non-empty string. */
  method CollectTags(payload: Option<Json>) returns (tags: seq<string>)
    ensures tags == RevalidatedTags(payload)
  {
    tags := [];
    tags := AddTag(tags, "posts");
    tags := AddTag(tags, "categories");
    var slug := FirstTruthy(SlugCandidates(payload));
    RevalidatedTagsOfPost(payload);
    if slug.Some? && slug.value.JString? && |slug.value.s| > 0 {
      tags := AddTag(tags, "post:" + slug.value.s);
    }
  }

  /** `for (const tag of tags) revalidateTag(tag)`: one call per tag, in set order. */
  method RevalidateAll(cache: TagCache, tags: seq<string>)
    modifies cache
    ensures cache.invalidated == old(cache.invalidated) + tags
  {
    var i := 0;
    while i < |tags|
      invariant 0 <= i <= |tags|
      invariant cache.invalidated == old(cache.invalidated) + tags[..i]
    {
      cache.RevalidateTag(tags[i]);
      i := i + 1;
    }
    assert tags[..i] == tags;
  }

  /**
   * `POST`, step by step: the secret check, the credential check, the tag
   * set filled by `add`, and one `revalidateTag` per tag in set order. Exactly
   * the tags it reports are invalidated, and none when it refuses.
   */
  method Post(cache: TagCache, secret: Option<string>, req: Request) returns (resp: Response)
    modifies cache
    ensures resp == Decide(secret, req)
    ensures cache.invalidated == old(cache.invalidated) + (if resp.body.Success? then resp.body.revalidated else [])
  {
    if secret.None? || secret.value == "" {
      return Response(500, Failure(SecretNotSet));
    }
    var bearer := BearerToken(req.authorization);
    if req.querySecret != Some(secret.value) && bearer != Some(secret.value) {
      return Unauthorized();
    }
    var tags := CollectTags(req.body);
    RevalidateAll(cache, tags);
    resp := Response(200, Success(tags));
  }

  // ---------------------------------------------------------------------
  // Payload shapes

  /** The list is the two broad tags, followed by the post's tag when there is one. */
  lemma RevalidatedTagsOfPost(payload: Option<Json>)
    ensures PostTag(payload).Some? ==> RevalidatedTags(payload) == ["posts", "categories", PostTag(payload).value]
    ensures PostTag(payload).None? ==> RevalidatedTags(payload) == ["posts", "categories"]
  {
  }

  /** A body `{"slug": "my-post"}` with the right bearer token revalidates the two broad tags and the post. */
  lemma TopLevelSlugExample(secret: string)
    requires secret != ""
    ensures Decide(Some(secret), Request(Some("Bearer " + secret), None, Some(JObject(map["slug" := JString("my-post")]))))
              == Response(200, Success(["posts", "categories", "post:my-post"]))
  {
    var auth := "Bearer " + secret;
    assert JsText.StartsWith(auth, "Bearer ") && auth[7..] == secret;
    var payload := Some(JObject(map["slug" := JString("my-post")]));
    var cs := SlugCandidates(payload);
    assert Member(payload, "slug") == Some(JString("my-post"));
    assert cs[0] == None && cs[1] == Some(JString("my-post"));
    FirstTruthyAt(cs, 1);
    assert "post:" + "my-post" == "post:my-post";
    assert PostTag(payload) == Some("post:my-post");
    RevalidatedTagsOfPost(payload);
  }

  /** A slug found only at `document.slug.current` is used as well. */
  lemma DocumentSlugExample(secret: string)
    requires secret != ""
    ensures Decide(Some(secret), Request(None, Some(secret),
              Some(JObject(map["document" := JObject(map["slug" := JObject(map["current" := JString("x")])])]))))
              == Response(200, Success(["posts", "categories", "post:x"]))
  {
    var slugObject := JObject(map["current" := JString("x")]);
    var document := JObject(map["slug" := slugObject]);
    var payload := Some(JObject(map["document" := document]));
    var ds := SlugCandidates(payload);
    assert Member(payload, "slug") == None && Member(payload, "body") == None;
    assert Member(payload, "document") == Some(document);
    assert Member(Some(document), "slug") == Some(slugObject);
    assert ds[4] == Some(JString("x"));
    assert ds[0] == ds[1] == ds[2] == ds[3] == None;
    FirstTruthyAt(ds, 4);
    assert "post:" + "x" == "post:x";
    assert PostTag(payload) == Some("post:x");
    RevalidatedTagsOfPost(payload);
  }

  /** A missing or unparseable body revalidates the two broad tags only. */
  lemma NoBodyExample(secret: string)
    requires secret != ""
    ensures Decide(Some(secret), Request(Some("Bearer " + secret), None, None))
              == Response(200, Success(["posts", "categories"]))
  {
    var auth := "Bearer " + secret;
    assert JsText.StartsWith(auth, "Bearer ") && auth[7..] == secret;
    assert forall i :: 0 <= i < 6 ==> SlugCandidates(None)[i] == None;
  }

  /**
   * A truthy `slug` that is not a string ends the chain: an object with an
   * empty or missing `current` yields no post tag, even when `body.slug`
   * holds a usable string.
   */
  lemma SlugObjectStopsChain(payload: Json, slugObject: map<string, Json>)
    requires payload.JObject? && "slug" in payload.members && payload.members["slug"] == JObject(slugObject)
    requires "current" !in slugObject || !Truthy(Some(slugObject["current"]))
    ensures PostTag(Some(payload)) == None
    ensures RevalidatedTags(Some(payload)) == ["posts", "categories"]
  {
    var cs := SlugCandidates(Some(payload));
    assert !Truthy(cs[0]) && Truthy(cs[1]);
    assert FirstTruthy(cs) == Some(JObject(slugObject)) by {
      assert FirstTruthy(cs) == FirstTruthy(cs[1..]);
    }
  }

  /** The `secret` query parameter alone is accepted, without any authorization header. */
  lemma QuerySecretAccepted(secret: string, body: Option<Json>)
    requires secret != ""
    ensures Decide(Some(secret), Request(None, Some(secret), body)).status == 200
  {
  }

  /** The scheme must be written "Bearer " exactly: another spelling is refused. */
  lemma BearerSchemeIsExact(secret: string)
    requires secret != ""
    ensures Decide(Some(secret), Request(Some("bearer " + secret), None, None)).status == 401
  {
    var auth := "bearer " + secret;
    assert auth[0] == 'b' && "Bearer "[0] == 'B';
    assert !JsText.StartsWith(auth, "Bearer ");
  }
}
