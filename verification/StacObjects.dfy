/** The STAC documents, queue entries and collected objects that the traversal handles. */
module StacObjects {
  import opened Wrappers

  type NonEmptyString = s: string | s != "" witness "/"

  /** Absolute URLs; an absolute URL is never empty, so it is never falsy. */
  datatype Url = Url(text: NonEmptyString)

  datatype ObjType = Catalog | Collection | Item | ItemCollection | Unknown

  /** One element of a `links` array; `href` is "" when the member is missing or falsy. Any other
      href stands for itself, also one that cannot be resolved, such as a number. */
  datatype Link = NotALink | Link(rel: string, href: string)

  /** One parsed JSON object. `links` is None when the member cannot be iterated over, in
      which case every reader of the links raises. `collections` and `features` are None
      unless the member is a list; their elements are None when they are not objects. */
  datatype Doc = Doc(
    kind: string,
    id: Option<string>,
    stacVersion: Option<string>,
    assetsIsObject: bool,
    conformsTo: bool,
    links: Option<seq<Link>>,
    collections: Option<seq<Option<Doc>>>,
    features: Option<seq<Option<Doc>>>)

  datatype QueueEntry = QueueEntry(url: Url, depth: nat, parentType: Option<ObjType>, parentUrl: Option<Url>)

  datatype CollectedObject = CollectedObject(
    data: Option<Doc>,
    url: Url,
    objType: ObjType,
    parentType: Option<ObjType>,
    parentUrl: Option<Url>,
    depth: nat,
    fetchError: bool)

  /** What one fetch returns: the objects at the URL and the raw page, None on failure; or it raises. */
  datatype Fetched = Fetched(objs: seq<CollectedObject>, raw: Option<Doc>, raised: bool)

  function TypeOf(data: Doc): ObjType {
    if data.kind == "Feature" then Item
    else if data.kind == "FeatureCollection" then ItemCollection
    else if data.kind == "Collection" then Collection
    else if data.kind == "Catalog" then Catalog
    else if data.assetsIsObject then Item
    else Unknown
  }
}
