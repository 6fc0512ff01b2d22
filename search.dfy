/** repository/search.go: a repository with a query builder, a sort
    getter and an optional post-mapping applied to every record found. */
module SearchRepo {
  import opened Wrappers
  import opened Fields
  import opened Repo

  /** SearchRepository[T, F]: the embedded repository, the query builder,
      the sort getter and the optional in-place mapper of a result. */
  datatype SearchRepository<!T, !F> = SearchRepository(
    repo: Repository,
    buildQuery: F -> Document,
    getSort: F -> string,
    postMap: Option<T -> T>)

  /** The mapper the constructor keeps: the first option, when present
      and non-nil. */
  function PostMapOf<T>(opts: seq<Option<T -> T>>): (m: Option<T -> T>)
    ensures m.Some? <==> |opts| > 0 && opts[0].Some?
    ensures m.Some? ==> m == opts[0]
  {
    if |opts| > 0 && opts[0].Some? then opts[0] else None
  }

  function NewSearchRepositoryWithIdName<T, F>(index: string, t: TypeDesc, buildQuery: F -> Document, getSort: F -> string,
                                              idName: string, versionName: string, opts: seq<Option<T -> T>>)
    : (r: Result<SearchRepository<T, F>>)
    ensures r.Success? <==> NewRepositoryWithIdName(index, t, idName, versionName).Success?
    ensures r.Success? ==> (r.value.repo.Valid() && r.value.repo == NewRepositoryWithIdName(index, t, idName, versionName).value &&
      r.value.buildQuery == buildQuery && r.value.getSort == getSort && r.value.postMap == PostMapOf(opts))
  {
    match NewRepositoryWithIdName(index, t, idName, versionName)
    case Failure(e) => Failure(e)
    case Success(repo) => Success(SearchRepository(repo, buildQuery, getSort, PostMapOf(opts)))
  }

  function NewSearchRepository<T, F>(index: string, t: TypeDesc, buildQuery: F -> Document, getSort: F -> string,
                                     opts: seq<Option<T -> T>>)
    : (r: Result<SearchRepository<T, F>>)
    ensures r.Success? ==> r.value.repo.Valid() && r.value.repo.index == index
  {
    NewSearchRepositoryWithIdName(index, t, buildQuery, getSort, "", "", opts)
  }

  function NewSearchRepositoryWithVersion<T, F>(index: string, t: TypeDesc, buildQuery: F -> Document, getSort: F -> string,
                                                versionName: string, opts: seq<Option<T -> T>>)
    : (r: Result<SearchRepository<T, F>>)
    ensures r.Success? ==> r.value.repo.Valid() && r.value.repo.index == index
  {
    NewSearchRepositoryWithIdName(index, t, buildQuery, getSort, "", versionName, opts)
  }

  /** The mapper applied to every element, in place: element i becomes
      f(element i) and the length stays. */
  method ApplyPostMap<T>(objs: array<T>, f: T -> T)
    modifies objs
    ensures forall i :: 0 <= i < objs.Length ==> objs[i] == f(old(objs[i]))
  {
    var l := objs.Length;
    var i := 0;
    while i < l
      invariant 0 <= i <= l
      invariant forall k :: 0 <= k < i ==> objs[k] == f(old(objs[k]))
      invariant forall k :: i <= k < l ==> objs[k] == old(objs[k])
    {
      objs[i] := f(objs[i]);
      i := i + 1;
    }
  }

  /** The search request handed to the search-result builder: the one
      index, the id's json name, the built query, the sort string as the
      sort getter gives it, the page; no version name. */
  datatype SearchCall = SearchCall(indices: seq<string>, idJson: string, query: Document, sort: string, limit: int, offset: int)

  /** What the search-result builder gives back: the records, the total
      and an error. */
  datatype Found<T> = Found(objs: seq<T>, total: int, err: Option<Error>)

  /** Search: the builder's records, each passed through the mapper when
      there is one (even when an error came back), with the builder's total
      and error unchanged. */
  method Search<T, F>(sr: SearchRepository<T, F>, filter: F, limit: int, offset: int, built: Found<T>)
    returns (call: SearchCall, objs: seq<T>, total: int, err: Option<Error>)
    ensures call == SearchCall([sr.repo.index], sr.repo.idJson, sr.buildQuery(filter), sr.getSort(filter), limit, offset)
    ensures |objs| == |built.objs|
    ensures sr.postMap.None? ==> objs == built.objs
    ensures sr.postMap.Some? ==> forall i :: 0 <= i < |objs| ==> objs[i] == sr.postMap.value(built.objs[i])
    ensures total == built.total && err == built.err
  {
    var query := sr.buildQuery(filter);
    var s := sr.getSort(filter);
    call := SearchCall([sr.repo.index], sr.repo.idJson, query, s, limit, offset);
    var results := new T[|built.objs|](i requires 0 <= i < |built.objs| => built.objs[i]);
    if sr.postMap.Some? {
      ApplyPostMap(results, sr.postMap.value);
    }
    objs, total, err := results[..], built.total, built.err;
  }
}
