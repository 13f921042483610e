/**
 What several modules share.
 */
module Common {
  datatype Option<T> = None | Some(value: T)

  const PGSIZE := 4096   // bytes in a page
  const DIRSIZ := 14     // bytes in a file name
  const NBUF := 30       // buffers in the block cache

  function Min(a: nat, b: nat): nat { if a < b then a else b }
}
