/** The parsed form of a workflow file (WorkflowDocument of internal/askcontract), as far as the
    repair code reads or writes it, and the YAML tree it stands for. */
module WorkflowDoc {
  import opened Text

  /** A YAML value: a scalar, a sequence or a mapping. */
  datatype Node = Scalar(text: string) | Seq(items: seq<Node>) | Mapping(fields: map<string, Node>)

  /** A step is its id and the mapping of its other fields. */
  datatype Step = Step(id: string, fields: map<string, Node>)

  /** A phase is its name, the mapping of its other fields, and its steps. */
  datatype Phase = Phase(name: string, fields: map<string, Node>, steps: seq<Step>)

  /** A workflow is its top-level fields, its phases and its top-level steps. */
  datatype Workflow = Workflow(fields: map<string, Node>, phases: seq<Phase>, steps: seq<Step>)

  /** A parsed file: a workflow, a vars document, or something else. */
  datatype Document = Document(workflow: Option<Workflow>, isVars: bool)
}
