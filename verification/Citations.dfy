/** Citations: immutable references into a snapshot (internal/knowledge/knowledge.go). */
module Citations {

  datatype Citation = Citation(snapshotID: int, chunkID: int, start: int, end: int)

  predicate WellFormed(c: Citation) { c.snapshotID > 0 && c.chunkID > 0 && 0 <= c.start < c.end }
}
