/**
 * The blog app's post-creation form: the slug field follows the title
 * through `generateSlug` until the author edits it by hand, and every later
 * title change overwrites that edit.
 */
module CreatePage {
  import opened Strings
  import opened Slug

  /**
   * `generateSlug(title)`: lower-case, every run of characters outside
   * `[a-z0-9]` becomes one '_', and '_' is stripped from both ends.
   */
  function GenerateSlug(title: string): (r: string)
    ensures r == Slugify(title, '_', true)
    ensures forall i :: 0 <= i < |r| ==> IsSlugChar(r[i]) || r[i] == '_'
    ensures r == [] || (r[0] != '_' && r[|r| - 1] != '_')
    ensures forall i :: 0 <= i < |r| - 1 ==> !(r[i] == '_' && r[i + 1] == '_')
    ensures Keep(r) == Keep(Lower(title))
  {
    SlugifySpec(title, '_', true);
    Slugify(title, '_', true)
  }

  /** The slug of a slug is that slug. */
  lemma GenerateSlugIdempotent(title: string)
    ensures GenerateSlug(GenerateSlug(title)) == GenerateSlug(title)
  {
    SlugifyIdempotent(title, '_', true);
  }

  /** The title and slug fields of the form. */
  class CreateBlogForm {
    var title: string
    var slug: string

    constructor()
      ensures title == "" && slug == ""
    {
      title, slug := "", "";
    }

    /** `handleTitleChange`: the title is set and the slug regenerated from it. */
    method HandleTitleChange(newTitle: string)
      modifies this
      ensures title == newTitle && slug == GenerateSlug(newTitle)
    {
      title := newTitle;
      slug := GenerateSlug(newTitle);
    }

    /** The slug input's `onChange`: a manual edit of the slug alone. */
    method HandleSlugChange(newSlug: string)
      modifies this
      ensures slug == newSlug && title == old(title)
    {
      slug := newSlug;
    }
  }
}
