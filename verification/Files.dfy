/**
 A file system as the updater uses it: a finite map from path to whole contents,
 changed only by renames. Any rename may be refused, and a refused rename changes
 nothing; the kernel reports a missing source separately from every other error.
 */
module Files {
  import opened Wrappers

  type Bytes = seq<bv8>
  type Files = map<string, Bytes>

  datatype RenameError = NotExist | Refused

  ghost predicate Same(fs: Files, fs': Files, p: string) {
    (p in fs <==> p in fs') && (p in fs ==> fs'[p] == fs[p])
  }

  ghost predicate Holds(fs: Files, p: string, content: Bytes) {
    p in fs && fs[p] == content
  }

  function Rename(fs: Files, src: string, dst: string, refused: bool): (r: (Files, Option<RenameError>))
    ensures r.1.None? <==> !refused && src in fs
    ensures r.1 == Some(NotExist) <==> !refused && src !in fs
    ensures r.1.Some? ==> r.0 == fs
    ensures r.1.None? ==> Holds(r.0, dst, fs[src]) && (src != dst ==> src !in r.0)
    ensures forall p :: p != src && p != dst ==> Same(fs, r.0, p)
  {
    if refused then (fs, Some(Refused))
    else if src !in fs then (fs, Some(NotExist))
    else if src == dst then (fs, None)
    else ((fs - {src})[dst := fs[src]], None)
  }
}
