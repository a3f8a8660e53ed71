/**
 * The shape shared by both path patterns of the router: a `/` followed by
 * one or more non-empty segments separated by `/` (each segment is the
 * regular expression `[^/]+`).
 */
module PathSegments {
  import opened Wrappers
  import opened Text

  predicate ValidSegments(segs: seq<string>)
  {
    |segs| >= 1 && forall i :: 0 <= i < |segs| ==> segs[i] != [] && '/' !in segs[i]
  }

  /** The raw (still encoded) segments of `path`, or None when it is not `(/[^/]+)+`. */
  function Segments(path: string): (r: Option<seq<string>>)
    ensures r.Some? ==> ValidSegments(r.value) && path == "/" + Join(r.value, '/')
  {
    if path == [] || path[0] != '/' then None
    else
      var pieces := SplitAll(path[1..], '/');
      if forall i :: 0 <= i < |pieces| ==> pieces[i] != [] then
        JoinSplitAll(path[1..], '/');
        assert path == "/" + path[1..];
        Some(pieces)
      else None
  }

  /** Every valid segment list is recognised from the path it forms. */
  lemma SegmentsOfJoin(segs: seq<string>)
    requires ValidSegments(segs)
    ensures Segments("/" + Join(segs, '/')) == Some(segs)
  {
    var path := "/" + Join(segs, '/');
    assert path[1..] == Join(segs, '/');
    SplitAllJoin(segs, '/');
  }
}
