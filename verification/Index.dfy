/** The operations of `index.rs` on storage, each proved against its meaning in `KeyLog`. */
module Index {
  import opened Host
  import opened KeyLog
  import opened Storage

  method Register(env: Env, version: u32, key: Val) returns (r: Result<()>)
    modifies env
    ensures match Registered(old(env.View()).logs, version, key)
            case Ok(logs) => r == Ok(()) && env.View() == old(env.View()).(logs := logs)
            case Err(e) => r == Err(e)
  {
    var current := if version in env.info then env.info[version] else KeyIndexInfo(0, 0);
    var pageIndex: u32 := current.len / PAGE_SIZE;
    var page := ReadPage(env, version, pageIndex);
    page := page + [key];
    env.pages := env.pages[(version, pageIndex) := page];

    if current.len == U32_MAX {
      return Err(Trap);
    }
    current := current.(len := current.len + 1);
    if pageIndex + 1 > current.pageCount {
      current := current.(pageCount := pageIndex + 1);
    }
    env.info := env.info[version := current];
    r := Ok(());
  }

  method ReadPage(env: Env, version: u32, pageIndex: u32) returns (page: seq<Val>)
    ensures page == Page(env.View().logs, version, pageIndex)
  {
    page := if (version, pageIndex) in env.pages then env.pages[(version, pageIndex)] else [];
  }

  /** `get` reads a page without consulting the summary, so past the end of the log it may
      return a key that was never registered since the last reset. */
  method Get(env: Env, version: u32, index: u32) returns (r: Result<Val>)
    ensures r == match Slot(env.View().logs, version, index) case Some(key) => Ok(key) case None => Err(CorruptIndex)
  {
    var page := ReadPage(env, version, index / PAGE_SIZE);
    r := if index % PAGE_SIZE < |page| then Ok(page[index % PAGE_SIZE]) else Err(CorruptIndex);
  }

  /** Reads a window of the log; `pagesRead` counts the pages fetched. */
  method ReadRange(env: Env, version: u32, start: u32, limit: u32) returns (r: Result<seq<Val>>, ghost pagesRead: nat)
    ensures r == Range(env.View().logs, version, start, limit)
    ensures pagesRead <= (limit + 30) / PAGE_SIZE + 1
  {
    ghost var g := env.View().logs;
    pagesRead := 0;
    if limit == 0 {
      return Ok([]), pagesRead;
    }
    var total := if version in env.info then env.info[version].len else 0;
    if start >= total {
      return Ok([]), pagesRead;
    }
    var end: u32 := Min(SaturatingAdd(start, limit), total);
    var firstPage, lastPage := start / PAGE_SIZE, (end - 1) / PAGE_SIZE;
    var out: seq<Val> := [];
    var pageIndex := firstPage;
    while pageIndex <= lastPage
      invariant firstPage <= pageIndex <= lastPage + 1
      invariant pagesRead == pageIndex - firstPage
      invariant |out| == if pageIndex == firstPage then 0 else Min(PAGE_SIZE * pageIndex, end) - start
      invariant forall j :: 0 <= j < |out| ==> Slot(g, version, start + j) == Some(out[j])
    {
      var page := ReadPage(env, version, pageIndex);
      pagesRead := pagesRead + 1;
      var from := if pageIndex == firstPage then start % PAGE_SIZE else 0;
      var to := if pageIndex == lastPage then (end - 1) % PAGE_SIZE + 1 else PAGE_SIZE;
      var offset := from;
      while offset < to
        invariant from <= offset <= to
        invariant |out| == PAGE_SIZE * pageIndex + offset - start
        invariant forall j :: 0 <= j < |out| ==> Slot(g, version, start + j) == Some(out[j])
      {
        ghost var i: u32 := start + |out|;
        assert i / PAGE_SIZE == pageIndex && i % PAGE_SIZE == offset;
        if offset >= |page| {
          assert Slot(g, version, i).None?;
          return Err(CorruptIndex), pagesRead;
        }
        out := out + [page[offset]];
        offset := offset + 1;
      }
      pageIndex := pageIndex + 1;
    }
    SliceIsUnique(g, version, start, end, out);
    r := Ok(out);
  }

  method ContainsKey(env: Env, version: u32, key: Val) returns (r: Result<bool>)
    ensures r == Contains(env.View().logs, version, key)
  {
    ghost var g := env.View().logs;
    var total := if version in env.info then env.info[version].len else 0;
    var pageIndex := 0;
    while true
      invariant 0 <= pageIndex <= PagesFor(total)
      invariant forall p: u32 :: p < pageIndex ==> key !in Page(g, version, p)
      decreases PagesFor(total) - pageIndex
    {
      if pageIndex * PAGE_SIZE > U32_MAX {
        return Err(Trap);
      }
      if pageIndex * PAGE_SIZE >= total {
        return Ok(false);
      }
      var page := ReadPage(env, version, pageIndex);
      if key in page {
        return Ok(true);
      }
      pageIndex := pageIndex + 1;
    }
  }

  method ResetLog(env: Env, version: u32)
    modifies env
    ensures env.View() == old(env.View()).(logs := Reset(old(env.View()).logs, version))
  {
    env.info := env.info - {version};
  }
}
