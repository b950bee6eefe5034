/** Creating, listing, reading and deleting sources over the source repository. */
module SourceManagement {
  import opened Wrappers
  import opened Entities
  import opened Requests
  import opened Repositories

  /** The API view of a Source. */
  datatype SourceDTO = SourceDTO(
    id: SourceId,
    name: string,
    url: string,
    mode: SourceMode,
    filterKeywords: Option<seq<Option<string>>>,
    filterRegex: Option<seq<Option<string>>>,
    intervalMinutes: int,
    lastChecked: Option<Instant>,
    createdAt: Instant,
    updatedAt: Instant)

  /** toDTO copies every field. */
  function ToDTO(s: Source): (d: SourceDTO)
    ensures d.id == s.id && d.name == s.name && d.url == s.url && d.mode == s.mode
    ensures d.filterKeywords == s.filterKeywords && d.filterRegex == s.filterRegex
    ensures d.intervalMinutes == s.intervalMinutes && d.lastChecked == s.lastChecked
    ensures d.createdAt == s.createdAt && d.updatedAt == s.updatedAt
  {
    SourceDTO(s.id, s.name, s.url, s.mode, s.filterKeywords, s.filterRegex,
              s.intervalMinutes, s.lastChecked, s.createdAt, s.updatedAt)
  }

  /** Nothing is lost in the DTO: distinct sources have distinct views. */
  lemma ToDTOInjective(a: Source, b: Source)
    requires ToDTO(a) == ToDTO(b)
    ensures a == b
  {
  }

  /** No two stored sources share a URL. */
  ghost predicate UrlsUnique(sources: map<SourceId, Source>) {
    forall a, b :: a in sources && b in sources && sources[a].url == sources[b].url ==> a == b
  }

  /** The row createSource stores under `id`: the request's fields, the interval defaulted
      to 60, never checked; None when a NOT NULL column would be null. */
  function NewSource(request: CreateSourceRequest, id: SourceId, now: Instant): (s: Option<Source>)
    ensures s.Some? <==> request.name.Some? && request.url.Some? && request.mode.Some?
    ensures s.Some? ==> && s.value.id == id
                        && Some(s.value.name) == request.name
                        && Some(s.value.url) == request.url
                        && Some(s.value.mode) == request.mode
                        && s.value.filterKeywords == request.filterKeywords
                        && s.value.filterRegex == request.filterRegex
                        && s.value.lastChecked == None
                        && s.value.createdAt == now && s.value.updatedAt == now
    ensures s.Some? && request.intervalMinutes.Some? ==> s.value.intervalMinutes == request.intervalMinutes.value
    ensures s.Some? && request.intervalMinutes.None? ==> s.value.intervalMinutes == 60
  {
    if request.name.Some? && request.url.Some? && request.mode.Some? then
      Some(Source(id, request.name.value, request.url.value, request.mode.value,
                  request.filterKeywords, request.filterRegex,
                  if request.intervalMinutes.Some? then request.intervalMinutes.value else DefaultIntervalMinutes,
                  None, now, now))
    else None
  }

  /** A request that passes validation can always be stored, with an interval within one week. */
  lemma ValidRequestIsStorable(request: CreateSourceRequest, id: SourceId, now: Instant)
    requires Valid(request)
    ensures NewSource(request, id, now).Some?
    ensures MinInterval <= NewSource(request, id, now).value.intervalMinutes <= MaxInterval
    ensures IsHttpUrl(NewSource(request, id, now).value.url)
  {
    ValidRequestShape(request);
  }

  class SourceService {
    const sourceRepository: SourceRepository

    constructor (sourceRepository: SourceRepository)
      ensures this.sourceRepository == sourceRepository
    {
      this.sourceRepository := sourceRepository;
    }

    /** createSource: refuse a URL that is already stored, otherwise store one new source. */
    method CreateSource(request: CreateSourceRequest, now: Instant) returns (r: Result<SourceDTO, ServiceError>)
      requires sourceRepository.Valid()
      modifies sourceRepository
      ensures sourceRepository.Valid()
      ensures old(sourceRepository.HasUrl(request.url)) ==>
                r == Failure(UrlAlreadyExists(request.url.value)) && unchanged(sourceRepository)
      ensures !old(sourceRepository.HasUrl(request.url)) && NewSource(request, old(sourceRepository.nextId), now).None? ==>
                r == Failure(MissingRequiredField) && unchanged(sourceRepository)
      ensures !old(sourceRepository.HasUrl(request.url)) && NewSource(request, old(sourceRepository.nextId), now).Some? ==>
                var s := NewSource(request, old(sourceRepository.nextId), now).value;
                && s.id !in old(sourceRepository.sources)
                && sourceRepository.sources == old(sourceRepository.sources)[s.id := s]
                && sourceRepository.nextId == old(sourceRepository.nextId) + 1
                && r == Success(ToDTO(s))
      ensures UrlsUnique(old(sourceRepository.sources)) ==> UrlsUnique(sourceRepository.sources)
    {
      var taken := sourceRepository.ExistsByUrl(request.url);
      if taken {
        return Failure(UrlAlreadyExists(request.url.value));
      }
      var draft := NewSource(request, sourceRepository.nextId, now);
      if draft.None? {
        return Failure(MissingRequiredField);
      }
      var saved := sourceRepository.Insert(draft.value, now);
      assert saved == draft.value;
      r := Success(ToDTO(saved));
    }

    /** getAllSources: one DTO per stored source. */
    method GetAllSources() returns (r: seq<SourceDTO>)
      requires sourceRepository.Valid()
      ensures |r| == |sourceRepository.sources|
      ensures forall i :: 0 <= i < |r| ==> r[i].id in sourceRepository.sources && r[i] == ToDTO(sourceRepository.sources[r[i].id])
      ensures forall id :: id in sourceRepository.sources ==> exists i :: 0 <= i < |r| && r[i].id == id
    {
      var all := sourceRepository.FindAll();
      r := seq(|all|, i requires 0 <= i < |all| => ToDTO(all[i]));
      forall id | id in sourceRepository.sources ensures exists i :: 0 <= i < |r| && r[i].id == id {
        var i :| 0 <= i < |all| && all[i].id == id;
        assert r[i].id == id;
      }
    }

    /** getSourceById */
    method GetSourceById(id: SourceId) returns (r: Result<SourceDTO, ServiceError>)
      ensures id !in sourceRepository.sources ==> r == Failure(SourceNotFound(id))
      ensures id in sourceRepository.sources ==> r == Success(ToDTO(sourceRepository.sources[id]))
    {
      var source := sourceRepository.FindById(id);
      if source.None? {
        return Failure(SourceNotFound(id));
      }
      return Success(ToDTO(source.value));
    }

    /** deleteSource: refuse a missing id, otherwise remove exactly that source. */
    method DeleteSource(id: SourceId) returns (r: Outcome<ServiceError>)
      requires sourceRepository.Valid()
      modifies sourceRepository
      ensures sourceRepository.Valid()
      ensures id !in old(sourceRepository.sources) ==> r == Fail(SourceNotFound(id)) && unchanged(sourceRepository)
      ensures id in old(sourceRepository.sources) ==>
                && r == Pass && sourceRepository.sources == old(sourceRepository.sources) - {id}
                && sourceRepository.nextId == old(sourceRepository.nextId)
      ensures UrlsUnique(old(sourceRepository.sources)) ==> UrlsUnique(sourceRepository.sources)
    {
      var found := sourceRepository.ExistsById(id);
      if !found {
        return Fail(SourceNotFound(id));
      }
      sourceRepository.DeleteById(id);
      return Pass;
    }
  }
}
