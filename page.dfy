/**
 * URL sets, the paging job and the per-URL worker (page.go).
 *
 * A document is an abstract type parameter `Doc`; a task is a function from a
 * document to the tuples it extracts. Fetching a page is not modelled: the
 * worker receives the fetch outcome as a parameter.
 */
module Page {
  import opened Wrappers
  import opened Outputs

  /** A job task (PagingTask). NilTask is the nil placeholder a selector
      reserves before its first step is finalised; calling it panics. */
  datatype PagingTask<!Doc> = NilTask | TaskFunc(run: Doc -> OutputListWithTag)

  predicate NoNilTask<Doc>(tasks: seq<PagingTask<Doc>>)
  {
    forall i :: 0 <= i < |tasks| ==> tasks[i].TaskFunc?
  }

  /** Outcome of fetching and parsing one URL. */
  datatype Fetch<Doc> = Fetched(doc: Doc) | FetchFailed(err: string)

  /** A set of URLs with an optional tag ("" means none). */
  class Urls {
    var data: seq<string>
    var tag: string

    /** OnOne: a set holding one URL, untagged. */
    constructor OnOne(url: string)
      ensures data == [url] && tag == ""
    {
      data, tag := [url], "";
    }

    /** OnMany: the given URLs in order, untagged. */
    constructor OnMany(urls: seq<string>)
      ensures data == urls && tag == ""
    {
      data, tag := urls, "";
    }

    /** OnRange: `format` instantiated with every integer of begin..end
        inclusive, in ascending order; `sprintf` stands for fmt.Sprintf. */
    constructor OnRange(sprintf: (string, int) -> string, format: string, begin: int, end: int)
      ensures |data| == if end < begin then 0 else end - begin + 1
      ensures forall k :: 0 <= k < |data| ==> data[k] == sprintf(format, begin + k)
      ensures tag == ""
    {
      var d: seq<string> := [];
      var i := begin;
      while i <= end
        invariant begin <= i && (i == begin || i <= end + 1)
        invariant |d| == i - begin
        invariant forall k :: 0 <= k < |d| ==> d[k] == sprintf(format, begin + k)
        decreases end - i
      {
        d := d + [sprintf(format, i)];
        i := i + 1;
      }
      data, tag := d, "";
    }

    /** Tag: overwrite the tag; the URLs are untouched. */
    method Tag(t: string)
      modifies this`tag
      ensures tag == t && data == old(data)
    {
      tag := t;
    }

    /** Urls.AddTask: a new job over this set with the one task `f`. */
    method AddTask<Doc(!new)>(f: PagingTask<Doc>) returns (pj: PagingJob<Doc>)
      ensures fresh(pj)
      ensures pj.Set == data && pj.Tags == StampIfTagged(map[], data, tag)
      ensures pj.Tasks == [f] && pj.TaskAlias == map[] && pj.Output == map[]
    {
      pj := new PagingJob.New();
      pj.AddRange(this);
      pj.AddTask(f);
    }

    /** Urls.Text: a new job over this set with the whole-text task. */
    method Text<Doc(!new)>(docText: Doc -> string) returns (pj: PagingJob<Doc>)
      ensures fresh(pj)
      ensures pj.Set == data && pj.Tags == StampIfTagged(map[], data, tag)
      ensures pj.Tasks == [TextTask(docText)] && pj.TaskAlias == map[] && pj.Output == map[]
    {
      pj := new PagingJob.New();
      pj.AddRange(this);
      pj.Text(docText);
    }
  }

  /** The tag map after recording `t` for every URL of `urls`, in order. */
  function Stamp(tags: map<string, string>, urls: seq<string>, t: string): (r: map<string, string>)
    ensures forall u :: u in r <==> u in tags || u in urls
    ensures forall u :: u in urls ==> r[u] == t
    ensures forall u :: u in tags && u !in urls ==> r[u] == tags[u]
  {
    if urls == [] then tags
    else
      var last := urls[|urls| - 1];
      var init := urls[..|urls| - 1];
      assert forall u :: u in urls <==> u in init || u == last;
      Stamp(tags, init, t)[last := t]
  }

  /** AddRange's treatment of tags: an empty tag leaves the map alone. */
  function StampIfTagged(tags: map<string, string>, urls: seq<string>, t: string): map<string, string>
  {
    if t == "" then tags else Stamp(tags, urls, t)
  }

  /** The tag a URL's tuples go under: its recorded tag, or the URL itself
      when none (or "") is recorded. */
  function EffectiveTag(tags: map<string, string>, url: string): (r: string)
    ensures url in tags && tags[url] != "" ==> r == tags[url]
    ensures url !in tags || tags[url] == "" ==> r == url
  {
    var t := if url in tags then tags[url] else "";
    if t == "" then url else t
  }

  /** Once AddRange has stamped a non-empty tag onto a URL, the worker files
      that URL's tuples under the tag, whatever the URL's earlier tag was. */
  lemma StampedUrlResolvesToTag(tags: map<string, string>, urls: seq<string>, t: string, u: string)
    requires t != "" && u in urls
    ensures EffectiveTag(StampIfTagged(tags, urls, t), u) == t
  {
  }

  /** All tuples the tasks produce on `doc`, task after task. */
  function RunTasks<Doc>(tasks: seq<PagingTask<Doc>>, doc: Doc): (r: OutputListWithTag)
    requires NoNilTask(tasks)
    ensures tasks == [] ==> r == []
    ensures |tasks| == 1 ==> r == tasks[0].run(doc)
  {
    if tasks == [] then []
    else RunTasks(tasks[..|tasks| - 1], doc) + tasks[|tasks| - 1].run(doc)
  }

  /** Running a concatenation of task lists runs one list after the other. */
  lemma {:induction false} RunTasksAppend<Doc>(a: seq<PagingTask<Doc>>, b: seq<PagingTask<Doc>>, doc: Doc)
    requires NoNilTask(a) && NoNilTask(b)
    ensures NoNilTask(a + b)
    ensures RunTasks(a + b, doc) == RunTasks(a, doc) + RunTasks(b, doc)
    decreases |b|
  {
    if b == [] {
      assert a + b == a;
    } else {
      var b' := b[..|b| - 1];
      assert (a + b)[..|a + b| - 1] == a + b';
      RunTasksAppend(a, b', doc);
    }
  }

  /** The task Text adds: one single-slot tuple, the document's text. */
  function TextTask<Doc(!new)>(docText: Doc -> string): (r: PagingTask<Doc>)
    ensures r.TaskFunc?
    ensures forall doc :: |r.run(doc)| == 1 && r.run(doc)[0] == [docText(doc)]
  {
    TaskFunc((doc: Doc) => [[docText(doc)]])
  }

  /** The paging job: URLs, tags, tasks, aliases and the output. */
  class PagingJob<Doc(!new)> {
    var Set: seq<string>
    var Tasks: seq<PagingTask<Doc>>
    var Tags: map<string, string>
    var TaskAlias: map<string, int>
    var Output: PagingOutput

    /** New: an empty job. */
    constructor New()
      ensures Set == [] && Tasks == [] && Tags == map[] && TaskAlias == map[] && Output == map[]
    {
      Set, Tasks, Tags, TaskAlias, Output := [], [], map[], map[], map[];
    }

    /** A value copy of another job (what `*pj` yields). */
    constructor Copy(pj: PagingJob<Doc>)
      ensures Set == pj.Set && Tasks == pj.Tasks && Tags == pj.Tags
      ensures TaskAlias == pj.TaskAlias && Output == pj.Output
    {
      Set, Tasks, Tags, TaskAlias, Output := pj.Set, pj.Tasks, pj.Tags, pj.TaskAlias, pj.Output;
    }

    /** AddRange: append the set's URLs; a tagged set records its tag for
        every one of its URLs, overwriting earlier tags. */
    method AddRange(s: Urls)
      modifies this`Set, this`Tags
      ensures Set == old(Set) + s.data
      ensures Tags == StampIfTagged(old(Tags), s.data, s.tag)
    {
      Set := Set + s.data;
      if s.tag != "" {
        for i := 0 to |s.data|
          invariant Set == old(Set) + s.data
          invariant Tags == Stamp(old(Tags), s.data[..i], s.tag)
        {
          assert s.data[..i + 1][..i] == s.data[..i];
          Tags := Tags[s.data[i] := s.tag];
        }
        assert s.data[..|s.data|] == s.data;
      }
    }

    /** AddTask: append one task at the end. */
    method AddTask(f: PagingTask<Doc>)
      modifies this`Tasks
      ensures Tasks == old(Tasks) + [f]
    {
      Tasks := Tasks + [f];
    }

    /** Text: append the whole-text task. */
    method Text(docText: Doc -> string)
      modifies this`Tasks
      ensures Tasks == old(Tasks) + [TextTask(docText)]
    {
      Tasks := Tasks + [TextTask(docText)];
    }
  }

  /** WorkerFunc, one call run on its own: on a failed fetch report the error
      and leave the output alone; otherwise run every task in order and
      append what each yields under the URL's tag. Calling a nil task panics
      in the source, hence the precondition on a successful fetch. */
  method WorkerFunc<Doc(!new)>(url: string, pj: PagingJob<Doc>, page: Fetch<Doc>) returns (err: Option<string>)
    requires page.Fetched? ==> NoNilTask(pj.Tasks)
    modifies pj`Output
    ensures page.FetchFailed? ==> err == Some(page.err) && pj.Output == old(pj.Output)
    ensures page.Fetched? ==> err == None
    ensures page.Fetched? ==>
      pj.Output == Merge(old(pj.Output), EffectiveTag(pj.Tags, url), RunTasks(pj.Tasks, page.doc))
  {
    if page.FetchFailed? {
      return Some(page.err);
    }
    var tag := if url in pj.Tags then pj.Tags[url] else "";
    if tag == "" {
      tag := url;
    }
    for i := 0 to |pj.Tasks|
      invariant pj.Output == Merge(old(pj.Output), tag, RunTasks(pj.Tasks[..i], page.doc))
    {
      var v := pj.Tasks[i].run(page.doc);
      assert pj.Tasks[..i + 1][..i] == pj.Tasks[..i];
      MergeTwice(old(pj.Output), tag, RunTasks(pj.Tasks[..i], page.doc), v);
      if v != [] {
        pj.Output := pj.Output[tag := Get(pj.Output, tag) + v];
      }
    }
    assert pj.Tasks[..|pj.Tasks|] == pj.Tasks;
    return None;
  }

  /** One successful worker call adds exactly the tuples its tasks produce:
      nothing already in the output is lost. */
  lemma WorkerAddsItsRows<Doc>(o: PagingOutput, tags: map<string, string>, url: string,
                               tasks: seq<PagingTask<Doc>>, doc: Doc)
    requires NoNilTask(tasks)
    ensures var r := Merge(o, EffectiveTag(tags, url), RunTasks(tasks, doc));
      && TotalLen(r) == TotalLen(o) + |RunTasks(tasks, doc)|
      && TotalBag(r) == TotalBag(o) + multiset(RunTasks(tasks, doc))
  {
    MergeTotal(o, EffectiveTag(tags, url), RunTasks(tasks, doc));
  }
}
