/** Nodes of the build graph (internal/model): targets, aliases and resources. */
module BuildNodes {
  import opened Labels

  datatype NodeKind = TargetNode | AliasNode | ResourceNode

  datatype OutputKind = OciOutput | DirOutput | FileOutput

  /** A declared output; `path` is the cleaned path below the workspace root. */
  datatype Output = Output(kind: OutputKind, identifier: string, path: string)

  class BuildNode {
    const targetLabel: TargetLabel
    const kind: NodeKind
    const dependencies: seq<TargetLabel>
    const outputs: seq<Output>
    var isSelected: bool
    var executionTime: int
    var cacheTime: int

    constructor (targetLabel: TargetLabel, kind: NodeKind, dependencies: seq<TargetLabel>, outputs: seq<Output>)
      ensures this.targetLabel == targetLabel && this.kind == kind
      ensures this.dependencies == dependencies && this.outputs == outputs
      ensures !isSelected
    {
      this.targetLabel, this.kind := targetLabel, kind;
      this.dependencies, this.outputs := dependencies, outputs;
      isSelected, executionTime, cacheTime := false, 0, 0;
    }

    method Select()
      modifies this`isSelected
      ensures isSelected
    {
      isSelected := true;
    }
  }
}
