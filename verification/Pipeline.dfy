/** From the walk to the graph: what one stage guarantees is what the next one needs. */
module Pipeline {
  import opened Walk
  import opened WalkSafety
  import Paths
  import GraphBuilder
  import Ordering

  lemma OnceDistinct(ps: seq<string>, i: nat, j: nat)
    requires i < j < |ps| && multiset(ps)[ps[i]] <= 1
    ensures ps[i] != ps[j]
  {
    if ps[i] == ps[j] {
      Ordering.TwoPositions(ps, i, j);
    }
  }

  /** The files that a walk of a tree with portable names includes are a valid input for the graph builder. */
  lemma WalkFeedsBuilder(cfg: Config, root: Entry, files: seq<GraphBuilder.SourceFile>)
    requires root.listing.Listed? && GoodNames(root) && PortableNames(root) && RootOk(cfg)
    requires |files| == |Walked(cfg, root).included|
    requires forall i :: 0 <= i < |files| ==> files[i].path == Walked(cfg, root).included[i].path
    ensures GraphBuilder.ValidFiles(files)
  {
    var ps := IncludedPaths(Walked(cfg, root).included);
    forall i | 0 <= i < |ps| ensures files[i].path == ps[i] && ps[i] in ps {}
    forall f | f in files ensures Paths.Canonical(f.path) {
      var i :| 0 <= i < |files| && files[i] == f;
      IncludedCanonicalOnce(cfg, root, ps[i]);
    }
    forall i, j | 0 <= i < j < |files| ensures files[i].path != files[j].path {
      IncludedCanonicalOnce(cfg, root, ps[i]);
      OnceDistinct(ps, i, j);
    }
  }
}
