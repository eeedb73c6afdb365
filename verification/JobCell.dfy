/** A job as a mutable record: what a *Job points to. */
module JobCells {
  import opened Receipts
  import opened Jobs

  class JobCell {
    var id: string
    var printer: string
    var receipt: Receipt
    var state: JobState
    var attempts: nat
    var lastError: LastError
    var createdAt: int
    var updatedAt: int
    var key: string

    function Value(): Job
      reads this
    {
      Job(id, printer, receipt, state, attempts, lastError, createdAt, updatedAt, key)
    }

    constructor (j: Job)
      ensures Value() == j
    {
      id, printer, receipt, state, attempts := j.id, j.printer, j.receipt, j.state, j.attempts;
      lastError, createdAt, updatedAt, key := j.lastError, j.createdAt, j.updatedAt, j.key;
    }
  }
}
