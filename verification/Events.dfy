// The events a run publishes.
module Events {
  datatype Kind =
    | PIPELINE_ACTIVE | PIPELINE_STAGING | PIPELINE_COMPLETED | PIPELINE_FAILED | PIPELINE_TERMINATED
    | TASK_ACTIVE | TASK_STAGING | TASK_COMPLETED | TASK_FAILED | TASK_SKIPPED | TASK_TERMINATED

  datatype Event = OfPipeline(kind: Kind) | OfTask(kind: Kind, task: string)

  const COMPLETED := OfPipeline(PIPELINE_COMPLETED)
  const FAILED := OfPipeline(PIPELINE_FAILED)
  const ACTIVE := OfPipeline(PIPELINE_ACTIVE)
}
