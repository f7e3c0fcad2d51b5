/** The rows of the tasks table, and what each SQL statement on it does. */
module TaskTable {
  import opened Types

  type Rows = map<Uuid, Task>

  /** Both the primary key and the UNIQUE url column reject an insert with the same message. */
  predicate CanInsert(rows: Rows, task: Task) {
    task.id !in rows && forall id <- rows :: rows[id].url != task.url
  }

  /** UPDATE rewrites every column except id, team, url and the creation columns. */
  function Overwrite(row: Task, copy: Task): Task {
    row.(status := copy.status, claimedBy := copy.claimedBy, claimedAt := copy.claimedAt,
         progress := copy.progress, localPath := copy.localPath, fileSize := copy.fileSize,
         version := copy.version)
  }

  function Update(rows: Rows, copy: Task): Rows {
    if copy.id in rows then rows[copy.id := Overwrite(rows[copy.id], copy)] else rows
  }

  function Released(row: Task): Task {
    row.(status := Queued, claimedBy := None, claimedAt := None, progress := 0.0, version := row.version + 1)
  }

  function Release(rows: Rows, id: Uuid): Rows {
    if id in rows then rows[id := Released(rows[id])] else rows
  }

  predicate InTeam(rows: Rows, team: Uuid, id: Uuid) {
    id in rows && rows[id].teamId == team
  }
}
