/**
  The REST controller for categories (`controller/CategoryController.java`)
  over a repository of rows keyed by category id. `UUID.randomUUID()` is a
  parameter.
*/
module CategoryApi {
  import opened Common
  import opened CategoryEntity
  import opened Repository

  /** The id of the category that cannot be deleted. */
  const DefaultId: string := "default"

  /** The row `init` seeds: no description, since `init` never sets one. */
  const DefaultCategory: CategoryDto :=
    CategoryDto(Some(DefaultId), Some("Uncategorized"), None, Some("hsl(var(--muted))"))

  /** The row `create` saves: a missing or empty id replaced by a fresh one, every other field as sent. */
  function Prepared(dto: CategoryDto, freshId: string): (p: CategoryDto)
    requires freshId != ""
    ensures p.id.Some? && p.id.value != ""
    ensures dto.id.Some? && dto.id.value != "" ==> p == dto
    ensures dto.id.None? || dto.id.value == "" ==> p == dto.(id := Some(freshId))
  {
    if dto.id.None? || dto.id.value == "" then dto.(id := Some(freshId)) else dto
  }

  /**
    The row `update` saves: title, description and color taken from the
    request when present, kept otherwise; the id is never changed.
  */
  function Merged(existing: CategoryDto, updates: CategoryDto): CategoryDto {
    existing.(
      title := if updates.title.Some? then updates.title else existing.title,
      description := if updates.description.Some? then updates.description else existing.description,
      color := if updates.color.Some? then updates.color else existing.color)
  }

  /**
    An update keeps the id, an update with every field `null` changes nothing,
    sending the same update twice is sending it once, and sending the stored
    row back changes nothing.
  */
  lemma MergedProperties(existing: CategoryDto, updates: CategoryDto)
    ensures Merged(existing, updates).id == existing.id
    ensures updates.title.None? && updates.description.None? && updates.color.None? ==>
      Merged(existing, updates) == existing
    ensures Merged(Merged(existing, updates), updates) == Merged(existing, updates)
    ensures Merged(existing, existing) == existing
  {
  }

  class CategoryController {
    /** The `categories` table: each row stored under its own id. */
    var repository: map<string, CategoryDto>

    /** Each row is stored under its own id, the table's primary key. */
    ghost predicate Valid()
      reads this
    {
      forall k :: k in repository ==> repository[k].id == Some(k)
    }

    /** The controller over the rows the database already holds. */
    constructor (stored: map<string, CategoryDto>)
      requires forall k :: k in stored ==> stored[k].id == Some(k)
      ensures Valid() && repository == stored
    {
      repository := stored;
    }

    /** `save`: the entity's row stored under its id, and returned. */
    method Save(category: Category) returns (saved: CategoryDto)
      requires category.id.Some?
      modifies this
      ensures saved == category.ToDto()
      ensures repository == old(repository)[category.id.value := saved]
    {
      saved := category.ToDto();
      repository := repository[category.id.value := saved];
    }

    /**
      `init`, run once at start-up: an empty table receives the default
      category; a table with any row is left as it is.
    */
    method Init()
      requires Valid()
      modifies this
      ensures Valid()
      ensures old(repository) == map[] ==> repository == map[DefaultId := DefaultCategory]
      ensures old(repository) != map[] ==> repository == old(repository)
      ensures DefaultId in repository || old(repository) != map[]
    {
      if |repository| == 0 {
        var category := Category.FromDto(DefaultCategory);
        var _ := Save(category);
      }
    }

    /** `GET /api/categories`: every stored category exactly once, in the table's order. */
    method List() returns (categories: seq<CategoryDto>)
      ensures |categories| == |repository|
      ensures forall i :: 0 <= i < |categories| ==> categories[i] in repository.Values
      ensures forall k :: k in repository ==> repository[k] in categories
    {
      var keys;
      categories, keys := FindAll(repository);
    }

    /** `GET /api/categories/{id}`: the stored row, or not-found. */
    method Get(id: string) returns (r: Response<CategoryDto>)
      ensures id in repository <==> r.Ok?
      ensures id in repository ==> r.body == repository[id]
      ensures id !in repository ==> r == NotFound
    {
      if id in repository {
        r := Ok(repository[id]);
      } else {
        r := NotFound;
      }
    }

    /** `POST /api/categories`: the prepared row is stored under its id, replacing any row with that id, and returned. */
    method Create(dto: CategoryDto, freshId: string) returns (r: Response<CategoryDto>)
      requires Valid() && freshId != ""
      modifies this
      ensures Valid()
      ensures r == Ok(Prepared(dto, freshId))
      ensures repository == old(repository)[r.body.id.value := r.body]
    {
      var request := dto;
      if request.id.None? || request.id.value == "" {
        request := request.(id := Some(freshId));
      }
      var category := Category.FromDto(request);
      var saved := Save(category);
      r := Ok(saved);
    }

    /**
      `PUT /api/categories/{id}`: not-found and no change for an unknown id;
      otherwise the stored row becomes `Merged` of itself and the request and
      is returned.
    */
    method Update(id: string, updates: CategoryDto) returns (r: Response<CategoryDto>)
      requires Valid()
      modifies this
      ensures Valid()
      ensures id !in old(repository) ==> r == NotFound && repository == old(repository)
      ensures id in old(repository) ==>
        && r == Ok(Merged(old(repository)[id], updates))
        && repository == old(repository)[id := r.body]
    {
      if id !in repository {
        return NotFound;
      }
      var existing := Category.FromDto(repository[id]);
      if updates.title.Some? {
        existing.SetTitle(updates.title);
      }
      if updates.description.Some? {
        existing.SetDescription(updates.description);
      }
      if updates.color.Some? {
        existing.SetColor(updates.color);
      }
      var saved := Save(existing);
      r := Ok(saved);
    }

    /**
      `DELETE /api/categories/{id}`: `"default"` is refused with bad-request
      whether or not it is stored; an unknown id gives not-found; otherwise
      exactly that row is removed. Only the last case changes the table.
    */
    method Delete(id: string) returns (r: Response<()>)
      requires Valid()
      modifies this
      ensures Valid()
      ensures id == DefaultId ==> r == BadRequest && repository == old(repository)
      ensures id != DefaultId && id !in old(repository) ==> r == NotFound && repository == old(repository)
      ensures id != DefaultId && id in old(repository) ==> r == NoContent && repository == old(repository) - {id}
      ensures DefaultId in old(repository) ==> DefaultId in repository
    {
      if id == DefaultId {
        return BadRequest;
      }
      if id !in repository {
        return NotFound;
      }
      repository := repository - {id};
      r := NoContent;
    }
  }
}
