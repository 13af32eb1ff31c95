/** How cofounder/api/build.js composes `system.nodes`: an entry for every
    function id that also has a node declaration (lines 66-70 and 118-126),
    then the compiled sequences spread over them (lines 250-267), so a
    sequence replaces a node of the same id. One sequence that fails to
    compile fails the whole build. */
module Registry {
  import opened Values
  import opened NodeRuntime
  import opened DagCompiler

  /** What `system.nodes[id]` holds once the build is done. */
  datatype Entry =
    | NodeEntry(spec: NodeSpec)
    | SequenceEntry(decl: SequenceSpec, levels: seq<seq<Id>>)

  /** The node entries: one per function id that has a node declaration;
      a declaration without a function, and a function without a
      declaration, get none. */
  function NodeEntries(functions: set<Id>, nodes: map<Id, NodeSpec>): (r: map<Id, Entry>)
    ensures r.Keys == functions * nodes.Keys
    ensures forall id :: id in r ==> r[id] == NodeEntry(nodes[id])
  {
    map id | id in functions * nodes.Keys :: NodeEntry(nodes[id])
  }

  /** `makeDags` over every declared sequence: each is compiled in turn and
      the first one that fails aborts with its error. */
  method CompileAll(sequences: map<Id, SequenceSpec>) returns (r: Result<map<Id, seq<seq<Id>>>>)
    ensures r.Ok? ==> r.value.Keys == sequences.Keys
    ensures r.Ok? ==> forall id :: id in r.value ==> IsLevelPartition(sequences[id], r.value[id])
    ensures r.Err? <==> exists id :: id in sequences && HasCycle(sequences[id])
    ensures r.Err? ==> r.error == CycleError
  {
    var dags: map<Id, seq<seq<Id>>> := map[];
    var pending := sequences.Keys;
    while pending != {}
      invariant pending <= sequences.Keys
      invariant dags.Keys == sequences.Keys - pending
      invariant forall id :: id in dags ==> IsLevelPartition(sequences[id], dags[id]) && !HasCycle(sequences[id])
      decreases pending
    {
      var id :| id in pending;
      var compiled := CompileDag(sequences[id]);
      if compiled.Err? {
        return Err(compiled.error);
      }
      dags := dags[id := compiled.value];
      pending := pending - {id};
    }
    r := Ok(dags);
  }

  /** `{...nodeEntries, ...dags}`: the sequence entries override. */
  function Compose(entries: map<Id, Entry>, sequences: map<Id, SequenceSpec>, dags: map<Id, seq<seq<Id>>>): (r: map<Id, Entry>)
    requires dags.Keys <= sequences.Keys
    ensures r.Keys == entries.Keys + dags.Keys
    ensures forall id :: id in dags ==> r[id] == SequenceEntry(sequences[id], dags[id])
    ensures forall id :: id in entries && id !in dags ==> r[id] == entries[id]
  {
    entries + map id | id in dags :: SequenceEntry(sequences[id], dags[id])
  }

  /** The registry the build leaves in `system.nodes`, or the compile error. */
  method BuildRegistry(functions: set<Id>, nodes: map<Id, NodeSpec>, sequences: map<Id, SequenceSpec>)
    returns (r: Result<map<Id, Entry>>)
    ensures r.Err? <==> exists id :: id in sequences && HasCycle(sequences[id])
    ensures r.Err? ==> r.error == CycleError
    ensures r.Ok? ==> r.value.Keys == (functions * nodes.Keys) + sequences.Keys
    ensures r.Ok? ==> forall id :: id in sequences ==>
              r.value[id].SequenceEntry? && r.value[id].decl == sequences[id] &&
              IsLevelPartition(sequences[id], r.value[id].levels)
    ensures r.Ok? ==> forall id :: id in r.value && id !in sequences ==> r.value[id] == NodeEntry(nodes[id])
  {
    var entries := NodeEntries(functions, nodes);
    var dags := CompileAll(sequences);
    if dags.Err? {
      return Err(dags.error);
    }
    r := Ok(Compose(entries, sequences, dags.value));
  }
}
