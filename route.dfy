/**
  One route: a method, a path pattern and a handler.  A pattern is split on
  `/`; a segment that starts with `:` names a parameter, any other segment
  must equal the request's segment at the same position.
*/
module Routes {
  import opened Text
  import opened Assoc
  import opened HttpRequest

  /** Handlers are function pointers in the server; here they are opaque ids. */
  type HandlerId = nat

  /** `Route::new(method, path, handler)` stores its three arguments unchanged. */
  datatype Route = Route(httpMethod: string, path: string, handler: HandlerId)

  predicate IsParamSegment(seg: string)
  {
    |seg| > 0 && seg[0] == ':'
  }

  /** The parameter a `:` segment binds: the segment with every leading `:` removed. */
  function ParamName(seg: string): (name: string)
    requires IsParamSegment(seg)
    ensures |name| < |seg| && seg == seg[..|seg| - |name|] + name
    ensures forall i :: 0 <= i < |seg| - |name| ==> seg[i] == ':'
    ensures |name| > 0 ==> name[0] != ':'
  {
    var name := TrimStartMatches(seg, ':');
    assert seg == seg[..|seg| - |name|] + seg[|seg| - |name|..];
    name
  }

  /** A pattern segment accepts a request segment: it is a parameter, or the two are equal. */
  predicate SegmentAgrees(pattern: string, segment: string)
  {
    IsParamSegment(pattern) || pattern == segment
  }

  /** The first position where the pattern rejects the request segment, or the common length when none does. */
  function FirstMismatch(rp: seq<string>, qp: seq<string>): (k: nat)
    requires |rp| == |qp|
    ensures k <= |rp|
    ensures forall i :: 0 <= i < k ==> SegmentAgrees(rp[i], qp[i])
    ensures k < |rp| ==> !SegmentAgrees(rp[k], qp[k])
  {
    if |rp| == 0 then 0
    else if !SegmentAgrees(rp[0], qp[0]) then 0
    else 1 + FirstMismatch(rp[1..], qp[1..])
  }

  /**
    The insertions matching makes over the given positions, in order: one
    per parameter segment whose request segment is non-empty.
  */
  function Bindings(rp: seq<string>, qp: seq<string>): seq<(string, string)>
    requires |rp| == |qp|
  {
    if |rp| == 0 then []
    else
      var n := |rp| - 1;
      Bindings(rp[..n], qp[..n]) + if IsParamSegment(rp[n]) && qp[n] != "" then [(ParamName(rp[n]), qp[n])] else []
  }

  /** The bindings of one more position. */
  lemma BindingsStep(rp: seq<string>, qp: seq<string>, i: nat)
    requires |rp| == |qp| && i < |rp|
    ensures Bindings(rp[..i + 1], qp[..i + 1]) == Bindings(rp[..i], qp[..i])
      + if IsParamSegment(rp[i]) && qp[i] != "" then [(ParamName(rp[i]), qp[i])] else []
  {
    assert rp[..i + 1][..i] == rp[..i] && qp[..i + 1][..i] == qp[..i];
  }

  /** Matching one more position: a parameter with a non-empty request segment is bound, anything else leaves the params alone. */
  lemma BindAfterStep(rp: seq<string>, qp: seq<string>, i: nat, params: map<string, string>)
    requires |rp| == |qp| && i < |rp|
    ensures params + PairsToMap(Bindings(rp[..i + 1], qp[..i + 1]))
      == if IsParamSegment(rp[i]) && qp[i] != "" then (params + PairsToMap(Bindings(rp[..i], qp[..i])))[ParamName(rp[i]) := qp[i]]
         else params + PairsToMap(Bindings(rp[..i], qp[..i]))
  {
    BindingsStep(rp, qp, i);
    var before := Bindings(rp[..i], qp[..i]);
    if IsParamSegment(rp[i]) && qp[i] != "" {
      PairsToMapSnoc(before, (ParamName(rp[i]), qp[i]));
      MergeUpdate(params, PairsToMap(before), ParamName(rp[i]), qp[i]);
    } else {
      assert before + [] == before;
    }
  }

  predicate MethodMatches(route: Route, requestMethod: string)
  {
    route.httpMethod == ToUpperAscii(requestMethod)
  }

  /**
    What `matches` returns and the params it leaves behind, for a request
    with the given method, path and params.  Parameters bound before a later
    literal mismatch stay bound.
  */
  function MatchOutcome(route: Route, requestMethod: string, requestPath: string,
                        params: map<string, string>): (r: (bool, map<string, string>))
    ensures !MethodMatches(route, requestMethod) ==> r == (false, params)
    ensures |Split(route.path, '/')| != |Split(requestPath, '/')| ==> r == (false, params)
    ensures r.0 <==>
      && MethodMatches(route, requestMethod)
      && |Split(route.path, '/')| == |Split(requestPath, '/')|
      && forall i :: 0 <= i < |Split(route.path, '/')| ==> SegmentAgrees(Split(route.path, '/')[i], Split(requestPath, '/')[i])
    ensures params.Keys <= r.1.Keys
  {
    if !MethodMatches(route, requestMethod) then (false, params)
    else
      var rp, qp := Split(route.path, '/'), Split(requestPath, '/');
      if |rp| != |qp| then (false, params)
      else
        var k := FirstMismatch(rp, qp);
        (k == |rp|, params + PairsToMap(Bindings(rp[..k], qp[..k])))
  }

  /** `route.matches(req)`: the method check, the segment split, then one pass binding parameters. */
  method Matches(route: Route, req: Request) returns (ok: bool)
    modifies req
    ensures (ok, req.params) == MatchOutcome(route, req.httpMethod, req.path, old(req.params))
  {
    if route.httpMethod != ToUpperAscii(req.httpMethod) {
      return false;
    }
    var rp := Split(route.path, '/');
    var qp := Split(req.path, '/');
    if |rp| != |qp| {
      return false;
    }
    ok := BindSegments(rp, qp, req);
  }

  /**
    The segment loop of `matches`: each parameter segment with a non-empty
    request segment is bound in turn, up to the first literal mismatch,
    whose bindings are kept.
  */
  method BindSegments(rp: seq<string>, qp: seq<string>, req: Request) returns (ok: bool)
    requires |rp| == |qp|
    modifies req
    ensures ok <==> FirstMismatch(rp, qp) == |rp|
    ensures var k := FirstMismatch(rp, qp);
      req.params == old(req.params) + PairsToMap(Bindings(rp[..k], qp[..k]))
  {
    ghost var params0 := req.params;
    for i := 0 to |rp|
      invariant forall j :: 0 <= j < i ==> SegmentAgrees(rp[j], qp[j])
      invariant req.params == params0 + PairsToMap(Bindings(rp[..i], qp[..i]))
    {
      var r, p := rp[i], qp[i];
      BindAfterStep(rp, qp, i, params0);
      if |r| > 0 && r[0] == ':' {
        var key := TrimStartMatches(r, ':');
        assert key == ParamName(rp[i]);
        if p != "" {
          req.params := req.params[key := p];
        }
      } else if r != p {
        assert !SegmentAgrees(rp[i], qp[i]);
        assert FirstMismatch(rp, qp) == i;
        return false;
      }
    }
    assert FirstMismatch(rp, qp) == |rp|;
    return true;
  }

  // ---------------------------------------------------------------------------
  // What matching binds

  /** A bound position keeps its value in the map of every longer prefix that does not rebind the same name. */
  lemma {:induction false} BoundValue(rp: seq<string>, qp: seq<string>, i: nat, n: nat)
    requires |rp| == |qp| && i < n <= |rp|
    requires IsParamSegment(rp[i]) && qp[i] != ""
    requires forall j :: i < j < n && IsParamSegment(rp[j]) && qp[j] != "" ==> ParamName(rp[j]) != ParamName(rp[i])
    ensures ParamName(rp[i]) in PairsToMap(Bindings(rp[..n], qp[..n]))
    ensures PairsToMap(Bindings(rp[..n], qp[..n]))[ParamName(rp[i])] == qp[i]
    decreases n
  {
    var name := ParamName(rp[i]);
    BindingsStep(rp, qp, n - 1);
    var before := Bindings(rp[..n - 1], qp[..n - 1]);
    if n == i + 1 {
      PairsToMapSnoc(before, (name, qp[i]));
    } else {
      BoundValue(rp, qp, i, n - 1);
      if IsParamSegment(rp[n - 1]) && qp[n - 1] != "" {
        PairsToMapSnoc(before, (ParamName(rp[n - 1]), qp[n - 1]));
      } else {
        assert before + [] == before;
      }
    }
  }

  /** A name bound at no position of a prefix is absent from that prefix's map. */
  lemma {:induction false} KeyUnbound(rp: seq<string>, qp: seq<string>, n: nat, key: string)
    requires |rp| == |qp| && n <= |rp|
    requires forall j :: 0 <= j < n && IsParamSegment(rp[j]) && ParamName(rp[j]) == key ==> qp[j] == ""
    ensures key !in PairsToMap(Bindings(rp[..n], qp[..n]))
    decreases n
  {
    if n > 0 {
      KeyUnbound(rp, qp, n - 1, key);
      BindingsStep(rp, qp, n - 1);
      var before := Bindings(rp[..n - 1], qp[..n - 1]);
      if IsParamSegment(rp[n - 1]) && qp[n - 1] != "" {
        PairsToMapSnoc(before, (ParamName(rp[n - 1]), qp[n - 1]));
      } else {
        assert before + [] == before;
      }
    }
  }

  /**
    A `:` segment reached by the loop binds its name to a non-empty request
    segment, overwriting any earlier value, unless a later position reached by
    the loop rebinds the same name.  This holds whether or not a literal
    mismatch after it makes `matches` return false.
  */
  lemma ParamBound(route: Route, requestMethod: string, requestPath: string, params: map<string, string>, i: nat)
    requires MethodMatches(route, requestMethod)
    requires |Split(route.path, '/')| == |Split(requestPath, '/')|
    requires i < |Split(route.path, '/')|
    requires forall j :: 0 <= j <= i ==> SegmentAgrees(Split(route.path, '/')[j], Split(requestPath, '/')[j])
    requires IsParamSegment(Split(route.path, '/')[i]) && Split(requestPath, '/')[i] != ""
    requires forall j :: i < j < |Split(route.path, '/')| && IsParamSegment(Split(route.path, '/')[j]) && Split(requestPath, '/')[j] != ""
               ==> ParamName(Split(route.path, '/')[j]) != ParamName(Split(route.path, '/')[i])
    ensures ParamName(Split(route.path, '/')[i]) in MatchOutcome(route, requestMethod, requestPath, params).1
    ensures MatchOutcome(route, requestMethod, requestPath, params).1[ParamName(Split(route.path, '/')[i])] == Split(requestPath, '/')[i]
  {
    var rp, qp := Split(route.path, '/'), Split(requestPath, '/');
    var k := FirstMismatch(rp, qp);
    assert i < k;
    BoundValue(rp, qp, i, k);
  }

  /**
    A key that no `:` segment names, or whose `:` segments all meet empty
    request segments, is left exactly as it was: present with the same value,
    or absent.
  */
  lemma KeyUntouched(route: Route, requestMethod: string, requestPath: string, params: map<string, string>, key: string)
    requires forall j :: 0 <= j < |Split(route.path, '/')| && IsParamSegment(Split(route.path, '/')[j]) && ParamName(Split(route.path, '/')[j]) == key
               ==> j < |Split(requestPath, '/')| && Split(requestPath, '/')[j] == ""
    ensures key in MatchOutcome(route, requestMethod, requestPath, params).1 <==> key in params
    ensures key in params ==> MatchOutcome(route, requestMethod, requestPath, params).1[key] == params[key]
  {
    var rp, qp := Split(route.path, '/'), Split(requestPath, '/');
    if MethodMatches(route, requestMethod) && |rp| == |qp| {
      KeyUnbound(rp, qp, FirstMismatch(rp, qp), key);
    }
  }

  /** A successful match means every literal segment of the pattern equals the request segment at its position. */
  lemma MatchedLiteralsEqual(route: Route, requestMethod: string, requestPath: string, params: map<string, string>, i: nat)
    requires MatchOutcome(route, requestMethod, requestPath, params).0
    requires i < |Split(route.path, '/')| && !IsParamSegment(Split(route.path, '/')[i])
    ensures i < |Split(requestPath, '/')| && Split(route.path, '/')[i] == Split(requestPath, '/')[i]
  {
  }

  /** A route whose stored method holds a lower-case letter never matches: the request method is upper-cased before the comparison. */
  lemma LowercaseRouteNeverMatches(route: Route, requestMethod: string, requestPath: string, params: map<string, string>, i: nat)
    requires i < |route.httpMethod| && IsLowerLetter(route.httpMethod[i])
    ensures MatchOutcome(route, requestMethod, requestPath, params) == (false, params)
  {
    UpperAsciiHasNoLower(requestMethod);
  }

  /** The request method is compared after upper-casing, so `get` reaches a `GET` route. */
  lemma LowercaseRequestMatches(path: string, handler: HandlerId)
    ensures MethodMatches(Route("GET", path, handler), "get")
    ensures !MethodMatches(Route("get", path, handler), "get")
  {
    assert ToUpperAscii("get") == "GET";
  }

  // ---------------------------------------------------------------------------
  // The shapes of the route tests

  /** `/lit` against `/seg`: a match exactly when the two literals are equal, binding nothing. */
  lemma StaticRouteMatches(requestMethod: string, lit: string, seg: string, handler: HandlerId, params: map<string, string>)
    requires '/' !in lit && '/' !in seg && !IsParamSegment(lit)
    ensures MatchOutcome(Route(ToUpperAscii(requestMethod), "/" + lit, handler), requestMethod, "/" + seg, params)
      == (lit == seg, params)
  {
    var rp, qp := ["", lit], ["", seg];
    var route, path := Route(ToUpperAscii(requestMethod), "/" + lit, handler), "/" + seg;
    TwoSegmentPath(lit);
    TwoSegmentPath(seg);
    StaticSegments(lit, seg, params);
    OutcomeOfSegments(route, requestMethod, path, params, rp, qp);
  }

  /** The path `/seg` splits into `""` and `seg`. */
  lemma TwoSegmentPath(seg: string)
    requires '/' !in seg
    ensures Split("/" + seg, '/') == ["", seg]
  {
    assert Join(["", seg], "/") == "/" + seg;
    SplitJoin(["", seg], '/');
  }

  /** The segments `["", lit]` against `["", seg]`: all agree exactly when the literals are equal, and nothing binds. */
  lemma StaticSegments(lit: string, seg: string, params: map<string, string>)
    requires !IsParamSegment(lit)
    ensures var k := FirstMismatch(["", lit], ["", seg]);
      && (k == 2 <==> lit == seg)
      && params + PairsToMap(Bindings(["", lit][..k], ["", seg][..k])) == params
  {
    var rp, qp := ["", lit], ["", seg];
    var k := FirstMismatch(rp, qp);
    BindingsStep(rp, qp, 0);
    assert rp[..0] == [] && qp[..0] == [];
    assert rp[..1] == [""] == qp[..1];
    assert Bindings(rp[..1], qp[..1]) == [];
    assert params + PairsToMap([]) == params;
    if lit == seg {
      assert k == 2;
      BindingsStep(rp, qp, 1);
      assert Bindings(rp[..2], qp[..2]) == [];
      assert rp[..2] == rp && qp[..2] == qp;
    } else {
      assert SegmentAgrees(rp[0], qp[0]) && !SegmentAgrees(rp[1], qp[1]);
      assert k == 1;
    }
  }

  /** Three `/`-free pieces joined by `/` split back into those pieces. */
  lemma SplitThree(a: string, b: string, c: string)
    requires '/' !in a && '/' !in b && '/' !in c
    ensures Split(a + "/" + b + "/" + c, '/') == [a, b, c]
  {
    var rest := b + "/" + c;
    assert a + "/" + b + "/" + c == a + "/" + rest;
    SplitCons(a, '/', rest);
    SplitCons(b, '/', c);
    SplitNone(c, '/');
    assert [a] + ([b] + [c]) == [a, b, c];
  }

  /** Four `/`-free pieces joined by `/` split back into those pieces. */
  lemma SplitFour(a: string, b: string, c: string, d: string)
    requires '/' !in a && '/' !in b && '/' !in c && '/' !in d
    ensures Split(a + "/" + b + "/" + c + "/" + d, '/') == [a, b, c, d]
  {
    var rest := b + "/" + c + "/" + d;
    assert a + "/" + b + "/" + c + "/" + d == a + "/" + rest;
    SplitCons(a, '/', rest);
    SplitThree(b, c, d);
    assert [a] + [b, c, d] == [a, b, c, d];
  }

  /** `matches` in terms of the two segment lists, once the method check has passed. */
  lemma OutcomeOfSegments(route: Route, requestMethod: string, requestPath: string, params: map<string, string>,
                          rp: seq<string>, qp: seq<string>)
    requires MethodMatches(route, requestMethod) && Split(route.path, '/') == rp && Split(requestPath, '/') == qp
    requires |rp| == |qp|
    ensures MatchOutcome(route, requestMethod, requestPath, params)
      == (FirstMismatch(rp, qp) == |rp|, params + PairsToMap(Bindings(rp[..FirstMismatch(rp, qp)], qp[..FirstMismatch(rp, qp)])))
  {
  }

  /** The bindings of a pattern `["", lit, p]` against `["", lit, v]`: only the last position can bind. */
  lemma BindingsOfThree(rp: seq<string>, qp: seq<string>)
    requires |rp| == 3 == |qp| && rp[0] == "" == qp[0] && rp[1] == qp[1] && !IsParamSegment(rp[1])
    ensures Bindings(rp, qp) == if IsParamSegment(rp[2]) && qp[2] != "" then [(ParamName(rp[2]), qp[2])] else []
  {
    BindingsStep(rp, qp, 0);
    BindingsStep(rp, qp, 1);
    BindingsStep(rp, qp, 2);
    assert rp[..0] == [] && qp[..0] == [];
    assert rp[..3] == rp && qp[..3] == qp;
  }

  /** The segments of `/lit/:name` against those of `/lit/value`: no mismatch, and at most `name` bound. */
  lemma ParamSegments(lit: string, name: string, value: string, params: map<string, string>)
    requires !IsParamSegment(lit)
    requires |name| > 0 ==> name[0] != ':'
    ensures FirstMismatch(["", lit, ":" + name], ["", lit, value]) == 3
    ensures params + PairsToMap(Bindings(["", lit, ":" + name], ["", lit, value]))
      == if value != "" then params[name := value] else params
  {
    var rp, qp := ["", lit, ":" + name], ["", lit, value];
    assert ParamName(":" + name) == name;
    assert SegmentAgrees(rp[0], qp[0]) && SegmentAgrees(rp[1], qp[1]) && SegmentAgrees(rp[2], qp[2]);
    BindingsOfThree(rp, qp);
    if value != "" {
      PairsToMapSingle(name, value);
      assert params + map[name := value] == params[name := value];
    } else {
      assert params + PairsToMap([]) == params;
    }
  }

  /** `/lit/:name` against `/lit/value`: a match that binds `name` to `value`, or binds nothing when `value` is empty. */
  lemma ParamRouteMatches(requestMethod: string, lit: string, name: string, value: string, handler: HandlerId, params: map<string, string>)
    requires '/' !in lit && '/' !in name && '/' !in value && !IsParamSegment(lit)
    requires |name| > 0 ==> name[0] != ':'
    ensures MatchOutcome(Route(ToUpperAscii(requestMethod), "/" + lit + "/:" + name, handler), requestMethod, "/" + lit + "/" + value, params)
      == (true, if value != "" then params[name := value] else params)
  {
    var rp, qp := ["", lit, ":" + name], ["", lit, value];
    var route, path := Route(ToUpperAscii(requestMethod), "/" + lit + "/:" + name, handler), "/" + lit + "/" + value;
    ParamPatternSplit(lit, name);
    ThreeSegmentPath(lit, value);
    ParamSegments(lit, name, value, params);
    assert rp[..3] == rp && qp[..3] == qp;
    OutcomeOfSegments(route, requestMethod, path, params, rp, qp);
  }

  /** The segments of `/lit/:name/a` against those of `/lit/value/b`: the first mismatch is the last position. */
  lemma PartialSegments(lit: string, name: string, value: string, a: string, b: string)
    requires !IsParamSegment(lit) && !IsParamSegment(a) && a != b
    ensures FirstMismatch(["", lit, ":" + name, a], ["", lit, value, b]) == 3
    ensures ["", lit, ":" + name, a][..3] == ["", lit, ":" + name] && ["", lit, value, b][..3] == ["", lit, value]
  {
    var rp, qp := ["", lit, ":" + name, a], ["", lit, value, b];
    assert SegmentAgrees(rp[0], qp[0]) && SegmentAgrees(rp[1], qp[1]) && SegmentAgrees(rp[2], qp[2]);
    assert !SegmentAgrees(rp[3], qp[3]);
  }

  /** `/lit/:name/a` against `/lit/value/b` with `a` and `b` different literals: no match, yet `name` stays bound to `value`. */
  lemma PartialBinding(requestMethod: string, lit: string, name: string, value: string, a: string, b: string,
                       handler: HandlerId, params: map<string, string>)
    requires '/' !in lit && '/' !in name && '/' !in value && '/' !in a && '/' !in b && !IsParamSegment(lit)
    requires |name| > 0 ==> name[0] != ':'
    requires value != "" && !IsParamSegment(a) && a != b
    ensures MatchOutcome(Route(ToUpperAscii(requestMethod), "/" + lit + "/:" + name + "/" + a, handler), requestMethod,
                         "/" + lit + "/" + value + "/" + b, params)
      == (false, params[name := value])
  {
    var rp, qp := ["", lit, ":" + name, a], ["", lit, value, b];
    var route, path := Route(ToUpperAscii(requestMethod), "/" + lit + "/:" + name + "/" + a, handler), "/" + lit + "/" + value + "/" + b;
    ParamPatternSplitFour(lit, name, a);
    FourSegmentPath(lit, value, b);
    PartialSegments(lit, name, value, a, b);
    ParamSegments(lit, name, value, params);
    OutcomeOfSegments(route, requestMethod, path, params, rp, qp);
  }

  /** The pattern `/lit/:name` splits into `""`, `lit` and `:name`. */
  lemma ParamPatternSplit(lit: string, name: string)
    requires '/' !in lit && '/' !in name
    ensures Split("/" + lit + "/:" + name, '/') == ["", lit, ":" + name]
  {
    assert "/" + lit + "/:" + name == "" + "/" + lit + "/" + (":" + name);
    SplitThree("", lit, ":" + name);
  }

  /** The path `/lit/value` splits into `""`, `lit` and `value`. */
  lemma ThreeSegmentPath(lit: string, value: string)
    requires '/' !in lit && '/' !in value
    ensures Split("/" + lit + "/" + value, '/') == ["", lit, value]
  {
    assert "/" + lit + "/" + value == "" + "/" + lit + "/" + value;
    SplitThree("", lit, value);
  }

  /** The pattern `/lit/:name/a` splits into `""`, `lit`, `:name` and `a`. */
  lemma ParamPatternSplitFour(lit: string, name: string, a: string)
    requires '/' !in lit && '/' !in name && '/' !in a
    ensures Split("/" + lit + "/:" + name + "/" + a, '/') == ["", lit, ":" + name, a]
  {
    assert "/" + lit + "/:" + name + "/" + a == "" + "/" + lit + "/" + (":" + name) + "/" + a;
    SplitFour("", lit, ":" + name, a);
  }

  /** The path `/lit/value/b` splits into `""`, `lit`, `value` and `b`. */
  lemma FourSegmentPath(lit: string, value: string, b: string)
    requires '/' !in lit && '/' !in value && '/' !in b
    ensures Split("/" + lit + "/" + value + "/" + b, '/') == ["", lit, value, b]
  {
    assert "/" + lit + "/" + value + "/" + b == "" + "/" + lit + "/" + value + "/" + b;
    SplitFour("", lit, value, b);
  }

}
