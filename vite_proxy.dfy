/** The development server's proxy rewrites: a request path under `/nve` or
    `/met` loses that prefix before it is sent on to NVE's or MET Norway's
    API. */
module ViteProxy {
  import opened Text

  const NvePrefix := "/nve"
  const MetPrefix := "/met"

  /** `p.replace(/^<prefix>/, "")`: the prefix is removed once when the path
      starts with it; any other path is passed on as it is. */
  function StripPrefix(prefix: string, p: string): (r: string)
    ensures StartsWith(p, prefix) ==> prefix + r == p
    ensures !StartsWith(p, prefix) ==> r == p
  {
    if StartsWith(p, prefix) then
      assert p == p[..|prefix|] + p[|prefix|..];
      p[|prefix|..]
    else p
  }

  /** The `/nve` rule's `rewrite`. */
  function RewriteNve(p: string): (r: string)
    ensures StartsWith(p, NvePrefix) ==> |r| == |p| - 4 && NvePrefix + r == p
    ensures !StartsWith(p, NvePrefix) ==> r == p
  {
    StripPrefix(NvePrefix, p)
  }

  /** The `/met` rule's `rewrite`. */
  function RewriteMet(p: string): (r: string)
    ensures StartsWith(p, MetPrefix) ==> |r| == |p| - 4 && MetPrefix + r == p
    ensures !StartsWith(p, MetPrefix) ==> r == p
  {
    StripPrefix(MetPrefix, p)
  }

  /** Putting the prefix in front and rewriting gives the path back. */
  lemma StripAfterPrefix(prefix: string, q: string)
    ensures StripPrefix(prefix, prefix + q) == q
  {
    assert (prefix + q)[..|prefix|] == prefix;
  }

  /** A path with `/nve` only further on is left alone. */
  lemma NveLaterUntouched()
    ensures RewriteNve("/api/nve/x") == "/api/nve/x"
  {
    assert "/api/nve/x"[1] != NvePrefix[1];
  }

  /** The match ignores path segments: `/nvex` becomes `x`. */
  lemma NveNotSegmentAware()
    ensures RewriteNve("/nvex") == "x"
  {
    StripAfterPrefix(NvePrefix, "x");
    assert NvePrefix + "x" == "/nvex";
  }

  /** Only one prefix is removed, so rewriting twice differs from rewriting
      once. */
  lemma NveNotIdempotent()
    ensures RewriteNve("/nve/nve/a") == "/nve/a"
    ensures RewriteNve(RewriteNve("/nve/nve/a")) == "/a"
  {
    StripAfterPrefix(NvePrefix, "/nve/a");
    assert NvePrefix + "/nve/a" == "/nve/nve/a";
    StripAfterPrefix(NvePrefix, "/a");
    assert NvePrefix + "/a" == "/nve/a";
  }

  /** The `/met` rule strips its own prefix the same way. */
  lemma MetStrips(q: string)
    ensures RewriteMet(MetPrefix + q) == q
    ensures RewriteNve(MetPrefix + q) == MetPrefix + q
  {
    StripAfterPrefix(MetPrefix, q);
    assert (MetPrefix + q)[1] != NvePrefix[1];
  }
}
