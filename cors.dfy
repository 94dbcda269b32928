/**
 * The cross-origin policy of the API server: the list of allowed origins
 * built at start-up from two local development addresses and the
 * `CORS_ORIGIN` environment variable, and the `origin` callback that admits
 * or refuses a request's `Origin` header. Reading the environment is the
 * parameter `corsOrigin`; the log line for a refused origin is left out.
 */
module Cors {
  import opened Common
  import opened Strings

  const ViteDev := "http://localhost:5173"
  const ReactDev := "http://localhost:3000"
  const RenderSuffix := ".onrender.com"

  /** An entry without a scheme is taken to be an HTTPS host. */
  function Normalize(origin: string): (r: string)
    ensures StartsWith(r, "http")
    ensures StartsWith(origin, "http") ==> r == origin
    ensures !StartsWith(origin, "http") ==> r == "https://" + origin
  {
    if StartsWith(origin, "http") then origin
    else
      assert ("https://" + origin)[..4] == "http";
      "https://" + origin
  }

  /** Normalizing twice gives what normalizing once gives. */
  lemma {:induction false} NormalizeIdempotent(origin: string)
    ensures Normalize(Normalize(origin)) == Normalize(origin)
  {
    assert StartsWith(Normalize(origin), "http");
  }

  /** `.filter(Boolean).map(...)`: absent and empty entries are dropped, the others normalized in order. */
  function Normalized(entries: seq<Option<string>>): (r: seq<string>)
    ensures |r| <= |entries|
    ensures forall o :: o in r <==> exists i :: 0 <= i < |entries| && Truthy(entries[i]) && o == Normalize(entries[i].value)
    ensures forall i :: 0 <= i < |r| ==> StartsWith(r[i], "http")
  {
    if entries == [] then []
    else
      var rest := Normalized(entries[1..]);
      assert forall i :: 1 <= i < |entries| ==> entries[i] == entries[1..][i - 1];
      if Truthy(entries[0]) then [Normalize(entries[0].value)] + rest else rest
  }

  /** `allowedOrigins`, with `corsOrigin` the value of `CORS_ORIGIN` if it is set. */
  function AllowedOrigins(corsOrigin: Option<string>): seq<string>
  {
    Normalized([Some(ViteDev), Some(ReactDev), corsOrigin])
  }

  /** The list holds the two development addresses and, when configured, the normalized `CORS_ORIGIN`, and nothing else. */
  lemma {:induction false} AllowedOriginsContents(corsOrigin: Option<string>, o: string)
    ensures o in AllowedOrigins(corsOrigin) <==>
      o == ViteDev || o == ReactDev || (Truthy(corsOrigin) && o == Normalize(corsOrigin.value))
  {
    var entries := [Some(ViteDev), Some(ReactDev), corsOrigin];
    assert Normalize(ViteDev) == ViteDev by {
      assert ViteDev[..4] == "http";
    }
    assert Normalize(ReactDev) == ReactDev by {
      assert ReactDev[..4] == "http";
    }
    if o == ViteDev {
      assert Truthy(entries[0]) && o == Normalize(entries[0].value);
    } else if o == ReactDev {
      assert Truthy(entries[1]) && o == Normalize(entries[1].value);
    } else if Truthy(corsOrigin) && o == Normalize(corsOrigin.value) {
      assert Truthy(entries[2]) && o == Normalize(entries[2].value);
    }
  }

  /** The `origin` callback: `true` admits the request, `false` is the "Not allowed by CORS" error. */
  predicate OriginAllowed(allowed: seq<string>, origin: Option<string>)
  {
    !Truthy(origin) || origin.value in allowed || EndsWith(origin.value, RenderSuffix)
  }

  /** Requests without an `Origin` header, such as those of curl or a mobile app, are always admitted. */
  lemma {:induction false} NoOriginAllowed(corsOrigin: Option<string>)
    ensures OriginAllowed(AllowedOrigins(corsOrigin), None)
    ensures OriginAllowed(AllowedOrigins(corsOrigin), Some(""))
  {
  }

  /** The development servers are admitted whatever `CORS_ORIGIN` says. */
  lemma {:induction false} DevOriginsAllowed(corsOrigin: Option<string>)
    ensures OriginAllowed(AllowedOrigins(corsOrigin), Some(ViteDev))
    ensures OriginAllowed(AllowedOrigins(corsOrigin), Some(ReactDev))
  {
    AllowedOriginsContents(corsOrigin, ViteDev);
    AllowedOriginsContents(corsOrigin, ReactDev);
  }

  /** A configured host without a scheme admits its HTTPS origin. */
  lemma {:induction false} ConfiguredOriginAllowed(host: string)
    requires host != "" && !StartsWith(host, "http")
    ensures OriginAllowed(AllowedOrigins(Some(host)), Some("https://" + host))
  {
    AllowedOriginsContents(Some(host), "https://" + host);
  }

  /** Any origin on a Render subdomain is admitted, whether or not it is listed. */
  lemma {:induction false} RenderOriginAllowed(corsOrigin: Option<string>, prefix: string)
    ensures OriginAllowed(AllowedOrigins(corsOrigin), Some(prefix + RenderSuffix))
  {
    assert (prefix + RenderSuffix)[|prefix|..] == RenderSuffix;
  }

  /** A present origin is admitted exactly when it is listed or lies on a Render subdomain. */
  lemma {:induction false} OriginAllowedExactly(corsOrigin: Option<string>, origin: string)
    requires origin != ""
    ensures OriginAllowed(AllowedOrigins(corsOrigin), Some(origin)) <==>
      || origin == ViteDev || origin == ReactDev
      || (Truthy(corsOrigin) && origin == Normalize(corsOrigin.value))
      || EndsWith(origin, RenderSuffix)
  {
    AllowedOriginsContents(corsOrigin, origin);
  }
}
