/** The JPA entity `Category` (`model/Category.java`) and its DTO. */
module CategoryEntity {
  import opened Common

  /** `CategoryDto`: the four fields as they travel over the wire. */
  datatype CategoryDto = CategoryDto(
    id: Option<string>,
    title: Option<string>,
    description: Option<string>,
    color: Option<string>)

  class Category {
    var id: Option<string>
    var title: Option<string>
    var description: Option<string>
    var color: Option<string>

    /** The default constructor: every field `null`. */
    constructor ()
      ensures ToDto() == CategoryDto(None, None, None, None)
    {
      id := None;
      title := None;
      description := None;
      color := None;
    }

    method SetId(id: Option<string>)
      modifies this`id
      ensures ToDto() == old(ToDto()).(id := id)
    {
      this.id := id;
    }

    method SetTitle(title: Option<string>)
      modifies this`title
      ensures ToDto() == old(ToDto()).(title := title)
    {
      this.title := title;
    }

    method SetDescription(description: Option<string>)
      modifies this`description
      ensures ToDto() == old(ToDto()).(description := description)
    {
      this.description := description;
    }

    method SetColor(color: Option<string>)
      modifies this`color
      ensures ToDto() == old(ToDto()).(color := color)
    {
      this.color := color;
    }

    /** `toDto`: the entity's four fields, unchanged. */
    function ToDto(): CategoryDto
      reads this
    {
      CategoryDto(id, title, description, color)
    }

    /** `fromDto`: a new entity filled by the four setters; converting it back gives the same DTO. */
    static method FromDto(dto: CategoryDto) returns (category: Category)
      ensures fresh(category)
      ensures category.ToDto() == dto
    {
      category := new Category();
      category.SetId(dto.id);
      category.SetTitle(dto.title);
      category.SetDescription(dto.description);
      category.SetColor(dto.color);
    }
  }

  /** `Category.fromDto(c.toDto())`: a new entity equal to `c` field for field. */
  method Copy(c: Category) returns (d: Category)
    ensures fresh(d)
    ensures d.id == c.id && d.title == c.title && d.description == c.description && d.color == c.color
  {
    d := Category.FromDto(c.ToDto());
  }
}
