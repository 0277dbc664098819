/** Walking one path (`walk_path` in asm_cleanup/pipeline/pipeline_orchestrator.py). */
module PathWalks {
  import opened Wrappers
  import opened Text
  import opened Transcript
  import opened Traversal
  import opened Walker
  import opened Scope
  import opened Inventories

  function WalkedRoot(asmPath: string): string {
    Strip(NormalizedPath(asmPath))
  }

  /** The walk starts at the path without outer space and, behind a plus sign, in its normal form. */
  lemma WalkedRootIsNormalized(asmPath: string)
    ensures WalkedRoot(asmPath) == NormalizedPath(asmPath)
  {
    NormalizedPathExact(asmPath);
    StripTrimmed(NormalizedPath(asmPath));
  }

  /** The inventory of a walk from a root, or None when a listing fails. */
  function InventoryFrom(port: Port, root: string, left: nat): Option<Inventory> {
    var visits := PreOrder(AsmTree(port), root, 0, left);
    if Completes(visits) then Some(Inventory(root, Listings(visits), SCHEMA_VERSION)) else None
  }

  /** The walks through a port, path by path. */
  function WalkThrough(port: Port, maxDepth: Option<int>, height: nat): PathWalk {
    (asmPath: string) => InventoryFrom(port, WalkedRoot(asmPath), Levels(maxDepth, height))
  }

  lemma WalkThroughFrom(port: Port, maxDepth: Option<int>, height: nat, asmPath: string, root: string)
    requires WalkedRoot(asmPath) == root
    ensures WalkThrough(port, maxDepth, height)(asmPath) == InventoryFrom(port, root, Levels(maxDepth, height))
  {
  }

  method WalkPath(port: Port, asmPath: string, maxDepth: Option<int>, ghost height: nat)
    returns (inv: Option<Inventory>)
    requires maxDepth.None? ==> Settles(AsmTree(port), WalkedRoot(asmPath), 0, height)
    ensures inv == WalkThrough(port, maxDepth, height)(asmPath)
  {
    var r, _, _ := Walk(port, NormalizedPath(asmPath), maxDepth, height);
    inv := if r.Ok? then Some(r.value) else None;
  }
}
