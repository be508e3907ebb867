/** Prefix routing: the backwards walk of HTTPServer and HTTPAuth over sorted keys, the
    redirect loop, and what happens to a request. */
module Routing {
  import opened Wrappers
  import opened Bytes

  const SLASH: byte := 47

  // ---------------------------------------------------------------- the order of std::map<std::string, ...>

  /** std::less on strings */
  predicate Less(a: bytes, b: bytes) {
    b != [] && (a == [] || a[0] < b[0] || (a[0] == b[0] && Less(a[1..], b[1..])))
  }

  lemma {:induction false} LessTransitive(a: bytes, b: bytes, c: bytes)
    requires Less(a, b) && Less(b, c)
    ensures Less(a, c)
  {
    if a != [] && a[0] == b[0] == c[0] {
      LessTransitive(a[1..], b[1..], c[1..]);
    }
  }

  lemma {:induction false} LessTotal(a: bytes, b: bytes)
    ensures Less(a, b) || a == b || Less(b, a)
    ensures !(Less(a, b) && Less(b, a)) && !Less(a, a)
  {
    if a != [] {
      LessTotal(a[1..], a[1..]);
      if b != [] && a[0] == b[0] {
        LessTotal(a[1..], b[1..]);
      }
    }
  }

  /** A proper prefix comes first. */
  lemma {:induction false} PrefixLess(a: bytes, b: bytes)
    requires a <= b && |a| < |b|
    ensures Less(a, b)
  {
    if a != [] {
      PrefixLess(a[1..], b[1..]);
    }
  }

  /** The keys of a map or set, in order. */
  predicate Sorted(keys: seq<bytes>) { forall i, j :: 0 <= i < j < |keys| ==> Less(keys[i], keys[j]) }

  // ---------------------------------------------------------------- path prefixes

  /** The key covers the resource: it is the resource, or a '/' follows it there. */
  predicate Covers(key: bytes, resource: bytes) {
    key <= resource && (|resource| == |key| || resource[|key|] == SLASH)
  }

  /** The test made for each key on the way. */
  predicate Matches(key: bytes, resource: bytes) {
    (key == [] || (|key| <= |resource| && resource[..|key|] == key))
    && (|resource| == |key| || (|key| < |resource| && resource[|key|] == SLASH))
  }

  lemma MatchesCovers(key: bytes, resource: bytes)
    ensures Matches(key, resource) == Covers(key, resource)
  {
  }

  lemma CoversLess(key: bytes, resource: bytes)
    requires Covers(key, resource)
    ensures !Less(resource, key)
  {
    if |key| < |resource| {
      PrefixLess(key, resource);
    }
    LessTotal(key, resource);
  }

  /** Of two covering keys the later one is the longer one. */
  lemma LaterIsLonger(a: bytes, b: bytes, resource: bytes)
    requires Covers(a, resource) && Covers(b, resource) && Less(a, b)
    ensures |a| < |b|
  {
    assert a == resource[..|a|] && b == resource[..|b|];
    LessTotal(a, b);
    if |b| < |a| {
      assert b <= a;
      PrefixLess(b, a);
    }
  }

  /** upper_bound: the number of keys not after the resource. */
  method UpperBound(keys: seq<bytes>, resource: bytes) returns (n: nat)
    requires Sorted(keys)
    ensures n <= |keys| && forall i :: 0 <= i < |keys| ==> (i < n <==> !Less(resource, keys[i]))
  {
    n := 0;
    while n < |keys| && !Less(resource, keys[n])
      invariant 0 <= n <= |keys| && forall i :: 0 <= i < n ==> !Less(resource, keys[i])
    {
      n := n + 1;
    }
    if n < |keys| {
      forall i | n < i < |keys|
        ensures Less(resource, keys[i])
      {
        LessTransitive(resource, keys[n], keys[i]);
      }
    }
  }

  /** The longest covering key. */
  predicate Longest(keys: seq<bytes>, resource: bytes, i: nat) {
    i < |keys| && Covers(keys[i], resource)
    && forall j :: 0 <= j < |keys| && j != i && Covers(keys[j], resource) ==> |keys[j]| < |keys[i]|
  }

  predicate Covered(keys: seq<bytes>, resource: bytes) {
    exists i :: 0 <= i < |keys| && Covers(keys[i], resource)
  }

  /** The walk back from upper_bound, as findRequestHandler and findResource make it: it
      stops at the one longest covering key, and fails exactly if there is none. */
  method WalkBack(keys: seq<bytes>, resource: bytes) returns (found: Option<nat>)
    requires Sorted(keys)
    ensures found.Some? <==> Covered(keys, resource)
    ensures found.Some? ==> Longest(keys, resource, found.value)
  {
    hide Less, Covers, Matches;
    var n := UpperBound(keys, resource);
    forall j | n <= j < |keys|
      ensures !Covers(keys[j], resource)
    {
      if Covers(keys[j], resource) {
        CoversLess(keys[j], resource);
      }
    }
    var i := n;
    while i > 0
      invariant 0 <= i <= n
      invariant forall j :: i <= j < |keys| ==> !Covers(keys[j], resource)
    {
      i := i - 1;
      MatchesCovers(keys[i], resource);
      if Matches(keys[i], resource) {
        forall j | 0 <= j < |keys| && j != i && Covers(keys[j], resource)
          ensures |keys[j]| < |keys[i]|
        {
          LaterIsLonger(keys[j], keys[i], resource);
        }
        return Some(i);
      }
    }
    found := None;
  }

  /** stripTrailingSlash */
  function Strip(s: bytes): bytes {
    if s != [] && s[|s| - 1] == SLASH then s[..|s| - 1] else s
  }

  /** A final slash makes no difference, and nothing else is taken away. */
  lemma StripOne(s: bytes)
    ensures Strip(s + [SLASH]) == s
    ensures (s == [] || s[|s| - 1] != SLASH) ==> Strip(s) == s
    ensures forall key :: Covers(key, Strip(s)) ==> Covers(key, s)
    ensures forall key :: Covers(key, s) && !Covers(key, Strip(s)) ==> key == s && key == Strip(s) + [SLASH]
  {
    assert (s + [SLASH])[..|s|] == s;
    forall key | Covers(key, Strip(s))
      ensures Covers(key, s)
    {
      assert s == Strip(s) || s == Strip(s) + [SLASH];
    }
    forall key | Covers(key, s) && !Covers(key, Strip(s))
      ensures key == s && key == Strip(s) + [SLASH]
    {
      assert s == Strip(s) + [SLASH];
      assert |key| <= |Strip(s)| ==> key <= Strip(s);
    }
  }

  // ---------------------------------------------------------------- redirects

  const MAX_REDIRECTS: nat := 10

  type Redirects = map<bytes, bytes>

  /** Where `n` redirects lead, if there are that many. */
  function Follow(m: Redirects, s: bytes, n: nat): Option<bytes> {
    if n == 0 then Some(s)
    else match Follow(m, s, n - 1)
      case Some(t) => if t in m then Some(m[t]) else None
      case None => None
  }

  lemma {:induction false} FollowStops(m: Redirects, s: bytes, k: nat, n: nat)
    requires k < n && Follow(m, s, k).Some? && Follow(m, s, k).value !in m
    ensures Follow(m, s, n).None?
    decreases n
  {
    if n > k + 1 {
      FollowStops(m, s, k, n - 1);
    }
  }

  /** The redirect loop: it gives up exactly when more than MAX_REDIRECTS redirects can be
      followed, and otherwise ends at a resource that is not redirected. */
  method Redirect(m: Redirects, s: bytes) returns (r: Option<bytes>)
    ensures r.None? <==> Follow(m, s, MAX_REDIRECTS + 1).Some?
    ensures s !in m ==> r == Some(s)
    ensures r.Some? ==> r.value !in m && exists n: nat :: n <= MAX_REDIRECTS && Follow(m, s, n) == r
  {
    var resource, n := s, 0;
    while resource in m
      invariant n <= MAX_REDIRECTS && Follow(m, s, n) == Some(resource) && (s !in m ==> resource == s)
      decreases MAX_REDIRECTS - n
    {
      if n + 1 > MAX_REDIRECTS {
        return None;
      }
      resource := m[resource];
      n := n + 1;
    }
    FollowStops(m, s, n, MAX_REDIRECTS + 1);
    r := Some(resource);
  }

  /** Redirects that lead only to redirected resources, as in a cycle, can be followed any
      number of times, so that the loop gives up on them. */
  lemma {:induction false} CycleGoesOn(m: Redirects, s: bytes, n: nat)
    requires forall t :: t in m ==> m[t] in m
    requires s in m
    ensures Follow(m, s, n).Some? && Follow(m, s, n).value in m
  {
    if n > 0 {
      CycleGoesOn(m, s, n - 1);
    }
  }

  // ---------------------------------------------------------------- the server

  /** needAuthentication: users exist, the resource is restricted and not permitted. */
  method NeedAuthentication(users: bool, restricted: seq<bytes>, permitted: seq<bytes>, resource: bytes)
      returns (needed: bool)
    requires Sorted(restricted) && Sorted(permitted)
    ensures needed <==> users && Covered(restricted, Strip(resource)) && !Covered(permitted, Strip(resource))
  {
    if !users {
      return false;
    }
    var stripped := Strip(resource);
    if |restricted| == 0 {
      return false;
    }
    var found := WalkBack(restricted, stripped);
    if found.Some? {
      if |permitted| == 0 {
        return true;
      }
      var permit := WalkBack(permitted, stripped);
      return permit.None?;
    }
    needed := false;
  }

  datatype Outcome = BadRequest | ServerError | Unauthorized | NotFound | Handled(handler: nat)

  /** HTTPServer with its HTTPAuth.  Handlers are numbers; the maps are kept in key order. */
  class Server {
    var keys: seq<bytes>
    var handlers: seq<nat>
    var redirects: Redirects
    var users: bool
    var restricted: seq<bytes>
    var permitted: seq<bytes>

    constructor ()
      ensures Valid() && keys == [] && redirects == map[] && restricted == [] && permitted == []
    {
      keys, handlers, redirects, users, restricted, permitted := [], [], map[], false, [], [];
    }

    ghost predicate Valid()
      reads this
    {
      Sorted(keys) && |handlers| == |keys| && Sorted(restricted) && Sorted(permitted)
    }

    /** addResource: a key that is already there keeps its handler. */
    method AddResource(resource: bytes, handler: nat)
      requires Valid()
      modifies this`keys, this`handlers
      ensures Valid()
      ensures var key := Strip(resource);
              if key in old(keys) then keys == old(keys) && handlers == old(handlers)
              else exists n: nat :: n <= |old(keys)| && keys == old(keys[..n] + [key] + keys[n..])
                                    && handlers == old(handlers[..n] + [handler] + handlers[n..])
    {
      var key := Strip(resource);
      var n := UpperBound(keys, key);
      if n > 0 && keys[n - 1] == key {
        return;
      }
      InsertSorted(keys, key, n);
      handlers := handlers[..n] + [handler] + handlers[n..];
      keys := keys[..n] + [key] + keys[n..];
    }

    /** findRequestHandler: the handler of the longest registered key that covers the resource. */
    method FindRequestHandler(resource: bytes) returns (handler: Option<nat>)
      requires Valid()
      ensures handler.Some? <==> Covered(keys, resource)
      ensures handler.Some? ==> exists i: nat :: Longest(keys, resource, i) && handler.value == handlers[i]
    {
      if |keys| == 0 {
        return None;
      }
      var i := WalkBack(keys, resource);
      handler := if i.Some? then Some(handlers[i.value]) else None;
    }

    /** handleRequest: redirects come first, then authentication, then the handler; so a
        handler runs only for a resource that needs no authentication or has passed it. */
    method HandleRequest(valid: bool, resource: bytes, authenticated: bool) returns (out: Outcome, final: bytes)
      requires Valid()
      ensures out.BadRequest? <==> !valid
      ensures valid ==> (out.ServerError? <==> Follow(redirects, Strip(resource), MAX_REDIRECTS + 1).Some?)
      ensures valid && !out.ServerError? ==>
                && final !in redirects
                && exists n: nat :: n <= MAX_REDIRECTS && Follow(redirects, Strip(resource), n) == Some(final)
      ensures valid && !out.ServerError? ==>
                var checked := if Strip(resource) in redirects then Strip(final) else final;
                && (out.Unauthorized? <==>
                      !authenticated && users && Covered(restricted, checked) && !Covered(permitted, checked))
                && (!out.Unauthorized? ==> (out.NotFound? <==> !Covered(keys, final)))
                && (out.Handled? ==> exists i: nat :: Longest(keys, final, i) && out.handler == handlers[i])
    {
      final := Strip(resource);
      if !valid {
        return BadRequest, final;
      }
      var target := Redirect(redirects, final);
      if target.None? {
        return ServerError, final;
      }
      // the request's own resource changes only when it has been redirected
      var asked := if final in redirects then target.value else resource;
      final := target.value;
      var needed := NeedAuthentication(users, restricted, permitted, asked);
      if needed && !authenticated {
        return Unauthorized, final;
      }
      var handler := FindRequestHandler(final);
      out := if handler.Some? then Handled(handler.value) else NotFound;
    }
  }

  lemma InsertSorted(keys: seq<bytes>, key: bytes, n: nat)
    requires Sorted(keys) && n <= |keys| && forall i :: 0 <= i < |keys| ==> (i < n <==> !Less(key, keys[i]))
    requires n == 0 || keys[n - 1] != key
    ensures Sorted(keys[..n] + [key] + keys[n..]) && key !in keys
  {
    hide Less;
    forall i | 0 <= i < n
      ensures Less(keys[i], key)
    {
      LessTotal(keys[i], key);
      LessTotal(keys[n - 1], key);
      if i < n - 1 {
        LessTransitive(keys[i], keys[n - 1], key);
      }
    }
    LessTotal(key, key);
  }
}
