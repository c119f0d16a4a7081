/**
  The import registry of the goderive printer as values: normalising an import
  path, deriving its sanitised fallback key, and what one call of an Import
  closure does to the alias -> path map.
 */
module Registry {
  import opened StringLib

  /** The path segment that marks a vendored copy of a package. */
  const VendorMarker := "/vendor/"

  /**
    unvendor: the part of `path` after the last "/vendor/", or `path` itself
    when it has none. The result has no "/vendor/" left in it.
   */
  function Unvendor(path: string): (r: string)
    ensures IsSuffix(r, path)
    ensures r == path <==> NoOccurrenceFrom(path, VendorMarker, 0)
    ensures r != path ==>
      && |r| + |VendorMarker| <= |path|
      && OccursAt(path, VendorMarker, |path| - |r| - |VendorMarker|)
      && NoOccurrenceFrom(path, VendorMarker, |path| - |r| - |VendorMarker| + 1)
    ensures NoOccurrenceFrom(r, VendorMarker, 0)
  {
    var last := LastIndex(path, VendorMarker);
    if last != -1 then
      var r := path[last + |VendorMarker|..];
      assert NoOccurrenceFrom(r, VendorMarker, 0) by {
        forall i | 0 <= i ensures !OccursAt(r, VendorMarker, i) {
          OccursInSuffix(path, VendorMarker, last + |VendorMarker|, i);
        }
      }
      r
    else
      path
  }

  /** Unvendoring an already unvendored path changes nothing. */
  lemma UnvendorIdempotent(path: string)
    ensures Unvendor(Unvendor(path)) == Unvendor(path)
  {
  }

  /**
    Two import paths that differ only by a vendoring prefix have the same
    canonical path: the one without the prefix. The condition on `path` says
    that "/vendor/" does not occur in it, not even straddling the marker.
   */
  lemma VendoredCopySameCanonical(prefix: string, path: string)
    requires NoOccurrenceFrom("/" + path, VendorMarker, 0)
    ensures Unvendor(prefix + VendorMarker + path) == path
    ensures Unvendor(path) == path
  {
    var s := prefix + VendorMarker + path;
    var k := |prefix|;
    assert OccursAt(s, VendorMarker, k) by {
      assert s[k..k + |VendorMarker|] == VendorMarker;
    }
    assert s[k + 7..] == "/" + path;
    forall i | k < i ensures !OccursAt(s, VendorMarker, i) {
      if i < k + 7 {
        assert s[i] == VendorMarker[i - k] != VendorMarker[0];
        NotOccursAtIfFirstDiffers(s, VendorMarker, i);
      } else {
        OccursInSuffix(s, VendorMarker, k + 7, i - (k + 7));
      }
    }
    var r := Unvendor(s);
    assert |s| - |r| - |VendorMarker| == k;
    forall i | 0 <= i ensures !OccursAt(path, VendorMarker, i) {
      OccursInSuffix("/" + path, VendorMarker, 1, i);
      assert ("/" + path)[1..] == path;
    }
  }

  lemma NotOccursAtIfFirstDiffers(s: string, pat: string, i: int)
    requires pat != [] && 0 <= i < |s| && s[i] != pat[0]
    ensures !OccursAt(s, pat, i)
  {
    if i + |pat| <= |s| {
      assert s[i..i + |pat|][0] == s[i];
    }
  }

  /** unicode.IsLetter, restricted to ASCII. */
  predicate IsLetter(c: char)
  {
    'a' <= c <= 'z' || 'A' <= c <= 'Z'
  }

  /** unicode.IsDigit, restricted to ASCII. */
  predicate IsDigit(c: char)
  {
    '0' <= c <= '9'
  }

  /** The characters a sanitised key may contain. */
  predicate IsKeyChar(c: char)
  {
    IsLetter(c) || IsDigit(c) || c == '_'
  }

  /** badToUnderscore: letters, digits and '_' are kept, anything else becomes '_'. */
  function BadToUnderscore(c: char): (r: char)
    ensures IsKeyChar(r)
    ensures r == c <==> IsKeyChar(c)
    ensures r != c ==> r == '_'
  {
    if IsLetter(c) || IsDigit(c) || c == '_' then c else '_'
  }

  /**
    makeFullpath: `path` with every character mapped by BadToUnderscore. The
    length is kept, every character of the result is a key character, and key
    characters of `path` are unchanged.
   */
  function MakeFullpath(path: string): (r: string)
    ensures |r| == |path|
    ensures forall i :: 0 <= i < |r| ==> IsKeyChar(r[i])
    ensures forall i :: 0 <= i < |r| ==> r[i] == BadToUnderscore(path[i])
    decreases |path|
  {
    if path == [] then [] else [BadToUnderscore(path[0])] + MakeFullpath(path[1..])
  }

  /** A string made only of key characters is its own fallback key. */
  lemma {:induction false} FullpathOfKey(s: string)
    requires forall i :: 0 <= i < |s| ==> IsKeyChar(s[i])
    ensures MakeFullpath(s) == s
  {
    var r := MakeFullpath(s);
    forall i | 0 <= i < |s| ensures r[i] == s[i] {
      assert r[i] == BadToUnderscore(s[i]);
    }
  }

  /** Sanitising twice is sanitising once. */
  lemma MakeFullpathIdempotent(path: string)
    ensures MakeFullpath(MakeFullpath(path)) == MakeFullpath(path)
  {
    FullpathOfKey(MakeFullpath(path));
  }

  /**
    makeAlias: the last '_'-separated piece of the sanitised path, that is the
    suffix of MakeFullpath(path) after its last '_' (the whole of it when it has
    no '_'). The printer never calls it.
   */
  function MakeAlias(path: string): (r: string)
    ensures IsLastPiece(r, MakeFullpath(path), '_')
    ensures forall i :: 0 <= i < |r| ==> IsKeyChar(r[i])
  {
    var fullpath := MakeFullpath(path);
    var fullpaths := Split(fullpath, '_');
    LastPiece(fullpath, fullpaths);
    fullpaths[|fullpaths| - 1]
  }

  /** The last `_`-free piece of a key-character string is a suffix of it after its last `_`. */
  lemma LastPiece(f: string, parts: seq<string>)
    requires |parts| >= 1 && Join(parts, '_') == f
    requires forall k :: 0 <= k < |parts| ==> Free(parts[k], '_')
    requires forall i :: 0 <= i < |f| ==> IsKeyChar(f[i])
    ensures IsLastPiece(parts[|parts| - 1], f, '_')
    ensures var r := parts[|parts| - 1]; forall i :: 0 <= i < |r| ==> IsKeyChar(r[i])
  {
    JoinLast(parts, '_');
    var r := parts[|parts| - 1];
    assert Free(r, '_');
    forall i | 0 <= i < |r| ensures IsKeyChar(r[i]) {
      assert r[i] == f[|f| - |r| + i];
    }
  }

  /** The outcome of one call of an Import closure on an unvendored path. */
  datatype Resolution =
    | Resolved(key: string, imports: map<string, string>)
    | NonUniqueFullpath(existing: string, path: string)

  /**
    The body of the Import closure after unvendoring: register `path` under
    `name` when `name` is free or already means `path`; otherwise under its
    sanitised full path, unless that key already means another path.
   */
  function Resolve(imports: map<string, string>, name: string, path: string): (r: Resolution)
    ensures r.NonUniqueFullpath? <==>
      && name in imports && imports[name] != path
      && MakeFullpath(path) in imports && imports[MakeFullpath(path)] != path
    ensures r.NonUniqueFullpath? ==> r.existing == imports[MakeFullpath(path)] && r.path == path
    ensures r.Resolved? ==>
      r.key == (if name !in imports || imports[name] == path then name else MakeFullpath(path))
    ensures r.Resolved? ==> r.key in r.imports && r.imports[r.key] == path
    ensures r.Resolved? ==> r.imports.Keys == imports.Keys + {r.key}
    ensures r.Resolved? ==> forall k :: k in imports ==> r.imports[k] == imports[k]
  {
    var fullpath := MakeFullpath(path);
    if name !in imports then
      Resolved(name, imports[name := path])
    else if imports[name] == path then
      Resolved(name, imports)
    else if fullpath in imports && imports[fullpath] != path then
      NonUniqueFullpath(imports[fullpath], path)
    else
      Resolved(fullpath, imports[fullpath := path])
  }

  /**
    `key` is where `name` and `path` are registered in `m` as the closure
    left them: `key` names `path`, and it is `name` itself or, when `name`
    names another path, the sanitised full path.
   */
  ghost predicate Settled(m: map<string, string>, name: string, path: string, key: string)
  {
    && key in m && m[key] == path
    && (key == name || (name in m && m[name] != path && key == MakeFullpath(path)))
  }

  /** A successful resolution leaves its name and path settled at the key it returns. */
  lemma ResolveSettles(imports: map<string, string>, name: string, path: string)
    requires Resolve(imports, name, path).Resolved?
    ensures Settled(Resolve(imports, name, path).imports, name, path, Resolve(imports, name, path).key)
  {
  }

  /** Resolving a settled name and path returns its key and adds nothing. */
  lemma SettledResolves(m: map<string, string>, name: string, path: string, key: string)
    requires Settled(m, name, path, key)
    ensures Resolve(m, name, path) == Resolved(key, m)
  {
    if key != name {
      assert m[key := path] == m;
    }
  }

  /** A map that keeps every entry of `m` keeps what is settled in `m`. */
  lemma SettledKept(m: map<string, string>, later: map<string, string>, name: string, path: string, key: string)
    requires Settled(m, name, path, key)
    requires forall k :: k in m ==> k in later && later[k] == m[k]
    ensures Settled(later, name, path, key)
  {
  }

  /**
    Resolving the same name and canonical path again, after a successful
    resolution, gives the same key and leaves the map as it is.
   */
  lemma ResolveAgainIsStable(imports: map<string, string>, name: string, path: string)
    requires Resolve(imports, name, path).Resolved?
    ensures Resolve(Resolve(imports, name, path).imports, name, path) == Resolve(imports, name, path)
  {
    var r := Resolve(imports, name, path);
    ResolveSettles(imports, name, path);
    SettledResolves(r.imports, name, path, r.key);
  }

  /**
    A later call of one Import closure. The closure unvendors its captured path
    again on every call; whatever other closures registered in between, as long
    as every entry of the map its first call left behind is still there, it
    returns the first call's key and adds nothing.
   */
  lemma LaterCallIsStable(imports: map<string, string>, name: string, raw: string, later: map<string, string>)
    requires Resolve(imports, name, Unvendor(raw)).Resolved?
    requires var first := Resolve(imports, name, Unvendor(raw));
      forall k :: k in first.imports ==> k in later && later[k] == first.imports[k]
    ensures Resolve(later, name, Unvendor(Unvendor(raw))) == Resolved(Resolve(imports, name, Unvendor(raw)).key, later)
  {
    var first := Resolve(imports, name, Unvendor(raw));
    UnvendorIdempotent(raw);
    ResolveSettles(imports, name, Unvendor(raw));
    SettledKept(first.imports, later, name, Unvendor(raw), first.key);
    SettledResolves(later, name, Unvendor(raw), first.key);
  }

  /**
    A request for an import: the closure's captured name and its path after the
    closure has unvendored it (Import.Call in the printer does that step).
   */
  datatype Request = Request(name: string, path: string)

  /** The result of calling one fresh Import closure per request, in order. */
  datatype Run =
    | Completed(keys: seq<string>, imports: map<string, string>)
    | Panicked(at: nat, existing: string, path: string)

  /**
    A generation pass: each request's closure is called once, in order, until
    one panics, which ends the pass.
   */
  function RunRequests(imports: map<string, string>, requests: seq<Request>): (r: Run)
    ensures r.Completed? ==> |r.keys| == |requests|
    ensures r.Panicked? ==> r.at < |requests|
    decreases |requests|
  {
    if requests == [] then Completed([], imports)
    else
      match Resolve(imports, requests[0].name, requests[0].path)
      case NonUniqueFullpath(existing, path) => Panicked(0, existing, path)
      case Resolved(key, next) =>
        match RunRequests(next, requests[1..])
        case Completed(keys, final) => Completed([key] + keys, final)
        case Panicked(at, existing, path) => Panicked(at + 1, existing, path)
  }

  /** The first step of a completed pass, unfolded. */
  lemma RunRequestsStep(imports: map<string, string>, requests: seq<Request>)
    requires requests != [] && RunRequests(imports, requests).Completed?
    ensures var first := Resolve(imports, requests[0].name, requests[0].path);
      && first.Resolved?
      && RunRequests(first.imports, requests[1..]).Completed?
      && RunRequests(imports, requests)
         == Completed([first.key] + RunRequests(first.imports, requests[1..]).keys,
                      RunRequests(first.imports, requests[1..]).imports)
  {
  }

  /** A completed pass keeps every entry of the initial map. */
  lemma {:induction false} RunRequestsKeepsEntries(imports: map<string, string>, requests: seq<Request>)
    requires RunRequests(imports, requests).Completed?
    ensures var r := RunRequests(imports, requests);
      forall k :: k in imports ==> k in r.imports && r.imports[k] == imports[k]
    decreases |requests|
  {
    if requests != [] {
      RunRequestsStep(imports, requests);
      var first := Resolve(imports, requests[0].name, requests[0].path);
      RunRequestsKeepsEntries(first.imports, requests[1..]);
    }
  }

  /** Each key maps, in `final`, to the canonical path of the request at its position. */
  ghost predicate KeysSound(keys: seq<string>, final: map<string, string>, requests: seq<Request>)
  {
    && |keys| == |requests|
    && forall i :: 0 <= i < |requests| ==> keys[i] in final && final[keys[i]] == requests[i].path
  }

  lemma KeysSoundCons(key: string, keys: seq<string>, final: map<string, string>, requests: seq<Request>)
    requires requests != [] && KeysSound(keys, final, requests[1..])
    requires key in final && final[key] == requests[0].path
    ensures KeysSound([key] + keys, final, requests)
  {
    forall i | 0 <= i < |requests|
      ensures ([key] + keys)[i] in final && final[([key] + keys)[i]] == requests[i].path
    {
      if i > 0 {
        assert requests[1..][i - 1] == requests[i];
      }
    }
  }

  /**
    On completion of a pass, every request's key maps to its canonical path in
    the final map.
   */
  lemma {:induction false} RunRequestsSound(imports: map<string, string>, requests: seq<Request>)
    requires RunRequests(imports, requests).Completed?
    ensures var r := RunRequests(imports, requests);
      forall i :: 0 <= i < |requests| ==>
        r.keys[i] in r.imports && r.imports[r.keys[i]] == requests[i].path
    decreases |requests|
  {
    var r := RunRequests(imports, requests);
    assert KeysSound(r.keys, r.imports, requests) by {
      if requests != [] {
        RunRequestsStep(imports, requests);
        var first := Resolve(imports, requests[0].name, requests[0].path);
        var rest := RunRequests(first.imports, requests[1..]);
        RunRequestsSound(first.imports, requests[1..]);
        RunRequestsKeepsEntries(first.imports, requests[1..]);
        KeysSoundCons(first.key, rest.keys, rest.imports, requests);
      }
    }
  }

  /**
    In a completed pass, requests whose canonical paths differ get different
    keys: no key is ever shared by two paths.
   */
  lemma DistinctPathsGetDistinctKeys(imports: map<string, string>, requests: seq<Request>, i: nat, j: nat)
    requires RunRequests(imports, requests).Completed?
    requires i < |requests| && j < |requests|
    requires requests[i].path != requests[j].path
    ensures RunRequests(imports, requests).keys[i] != RunRequests(imports, requests).keys[j]
  {
    RunRequestsSound(imports, requests);
  }

  /** In a completed pass, every request for a name and path settled at `key` gets `key`. */
  lemma {:induction false} SettledRequestsKeepKey(imports: map<string, string>, requests: seq<Request>,
                                                  name: string, path: string, key: string)
    requires RunRequests(imports, requests).Completed?
    requires Settled(imports, name, path, key)
    ensures forall j :: 0 <= j < |requests| && requests[j] == Request(name, path) ==>
      RunRequests(imports, requests).keys[j] == key
    decreases |requests|
  {
    if requests != [] {
      RunRequestsStep(imports, requests);
      var first := Resolve(imports, requests[0].name, requests[0].path);
      var r := RunRequests(imports, requests);
      var rest := RunRequests(first.imports, requests[1..]);
      SettledKept(imports, first.imports, name, path, key);
      SettledRequestsKeepKey(first.imports, requests[1..], name, path, key);
      if requests[0] == Request(name, path) {
        SettledResolves(imports, name, path, key);
      }
      forall j | 0 <= j < |requests| && requests[j] == Request(name, path) ensures r.keys[j] == key {
        if j > 0 {
          assert requests[1..][j - 1] == requests[j];
          assert r.keys[j] == rest.keys[j - 1];
        }
      }
    }
  }

  /** In a completed pass, two requests for the same name and path get the same key. */
  lemma {:induction false} RepeatedRequestSameKey(imports: map<string, string>, requests: seq<Request>, i: nat, j: nat)
    requires RunRequests(imports, requests).Completed?
    requires i < |requests| && j < |requests| && requests[i] == requests[j]
    ensures RunRequests(imports, requests).keys[i] == RunRequests(imports, requests).keys[j]
    decreases |requests|, if i <= j then 0 else 1
  {
    if j < i {
      RepeatedRequestSameKey(imports, requests, j, i);
    } else if i < j {
      RunRequestsStep(imports, requests);
      var first := Resolve(imports, requests[0].name, requests[0].path);
      var rest := RunRequests(first.imports, requests[1..]);
      assert requests[1..][j - 1] == requests[j];
      if i == 0 {
        ResolveSettles(imports, requests[0].name, requests[0].path);
        SettledRequestsKeepKey(first.imports, requests[1..], requests[0].name, requests[0].path, first.key);
      } else {
        assert requests[1..][i - 1] == requests[i];
        RepeatedRequestSameKey(first.imports, requests[1..], i - 1, j - 1);
      }
    }
  }

  /**
    The collision scenario: "fmt" is registered for the standard package, so a
    second package wanting the name "fmt" gets its sanitised full path.
   */
  lemma CollisionFallsBackToFullpath()
    ensures Resolve(map["fmt" := "fmt"], "fmt", "x/fmt")
      == Resolved("x_fmt", map["fmt" := "fmt", "x_fmt" := "x/fmt"])
  {
    assert MakeFullpath("x/fmt") == "x_fmt";
  }
}
