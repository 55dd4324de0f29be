/** ProductGroupDao: a named group of products. Its products are read through
    the product-to-group link table; its rollback snapshot is its name with the
    ids of its current products; deleting it logs that snapshot first.

    ProductToGroupModel's `getProducts`/`setProducts`, the link cascade on
    delete and `createRollbackRemoveDto` are not part of this model's source;
    GetProducts, the link updates below and the payload built in Delete are
    ASSUMED contracts for them. */
module ProductGroups {
  import opened Common
  import opened Data

  datatype ProductListItem = ProductListItem(id: int, name: string)
  datatype ProductGroupOutputDto = ProductGroupOutputDto(id: int, name: string)
  datatype ProductGroupFullOutputDto = ProductGroupFullOutputDto(id: int, name: string, products: seq<ProductListItem>)

  /** A partial update: a missing field leaves that part of the group as it is. */
  datatype ProductGroupUpdateDto = ProductGroupUpdateDto(name: Option<string>, products: Option<seq<int>>)

  /** The product-group table together with its product links (group id to the
      linked product ids, in link order). */
  class ProductGroupModel {
    var names: map<int, string>
    var links: map<int, seq<int>>

    ghost predicate Valid()
      reads this
    {
      links.Keys <= names.Keys
    }

    constructor ()
      ensures Valid() && names == map[] && links == map[]
    {
      names := map[];
      links := map[];
    }
  }

  /** The product ids linked to a group. */
  function LinkedIds(links: map<int, seq<int>>, id: int): seq<int>
  {
    if id in links then links[id] else []
  }

  /** ASSUMED `getProducts`: the linked products that exist in the product
      table (`catalog`, id to name), in link order. */
  function GetProducts(ids: seq<int>, catalog: map<int, string>): (r: seq<ProductListItem>)
    ensures |r| <= |ids|
    ensures forall p :: p in r <==> p.id in ids && p.id in catalog && p.name == catalog[p.id]
    decreases |ids|
  {
    if ids == [] then []
    else
      var prefix, last := ids[..|ids| - 1], ids[|ids| - 1];
      assert ids == prefix + [last];
      GetProducts(prefix, catalog) + (if last in catalog then [ProductListItem(last, catalog[last])] else [])
  }

  function ProductIds(items: seq<ProductListItem>): (r: seq<int>)
    ensures |r| == |items| && forall i :: 0 <= i < |items| ==> r[i] == items[i].id
  {
    seq(|items|, i requires 0 <= i < |items| => items[i].id)
  }

  /** Reading the products back from their own ids gives the same products. */
  lemma {:induction false} GetProductsIdempotent(ids: seq<int>, catalog: map<int, string>)
    ensures GetProducts(ProductIds(GetProducts(ids, catalog)), catalog) == GetProducts(ids, catalog)
    decreases |ids|
  {
    if ids != [] {
      var prefix, last := ids[..|ids| - 1], ids[|ids| - 1];
      var items := GetProducts(prefix, catalog);
      GetProductsIdempotent(prefix, catalog);
      if last in catalog {
        var item := ProductListItem(last, catalog[last]);
        var itemIds := ProductIds(items + [item]);
        assert itemIds[..|itemIds| - 1] == ProductIds(items);
      } else {
        assert GetProducts(ids, catalog) == items;
      }
    }
  }

  /** `toOutputDto`. */
  function ToOutputDto(names: map<int, string>, id: int): (r: ProductGroupOutputDto)
    requires id in names
    ensures r.id == id && r.name == names[id]
  {
    ProductGroupOutputDto(id, names[id])
  }

  /** `toFullOutput`: the short output plus the current products. */
  function ToFullOutput(names: map<int, string>, links: map<int, seq<int>>, catalog: map<int, string>, id: int)
    : (r: ProductGroupFullOutputDto)
    requires id in names
    ensures ProductGroupOutputDto(r.id, r.name) == ToOutputDto(names, id)
    ensures forall p :: p in r.products <==> p.id in LinkedIds(links, id) && p.id in catalog && p.name == catalog[p.id]
  {
    ProductGroupFullOutputDto(id, names[id], GetProducts(LinkedIds(links, id), catalog))
  }

  /** `rollbackOutput`: the name with the ids of the current products, exactly
      the visible state of the group. */
  function RollbackOutput(names: map<int, string>, links: map<int, seq<int>>, catalog: map<int, string>, id: int)
    : (r: ProductGroupCreateDto)
    requires id in names
    ensures r.name == ToFullOutput(names, links, catalog, id).name
    ensures r.products == ProductIds(ToFullOutput(names, links, catalog, id).products)
  {
    ProductGroupCreateDto(names[id], ProductIds(GetProducts(LinkedIds(links, id), catalog)))
  }

  /** The names after `loadAndFlush`: a missing name keeps the old one. */
  function LoadedNames(names: map<int, string>, id: int, dto: ProductGroupUpdateDto): (r: map<int, string>)
    requires id in names
    ensures r.Keys == names.Keys
    ensures r[id] == (if dto.name.Some? then dto.name.value else names[id])
    ensures forall other :: other in names && other != id ==> r[other] == names[other]
  {
    names[id := if dto.name.Some? then dto.name.value else names[id]]
  }

  /** The links after `loadAndFlush`: ASSUMED `setProducts` replaces the group's
      links by the given list; a missing list leaves them as they are. */
  function LoadedLinks(links: map<int, seq<int>>, id: int, dto: ProductGroupUpdateDto): (r: map<int, seq<int>>)
    ensures LinkedIds(r, id) == (if dto.products.Some? then dto.products.value else LinkedIds(links, id))
    ensures forall other :: other != id ==> LinkedIds(r, other) == LinkedIds(links, other)
  {
    if dto.products.Some? then links[id := dto.products.value] else links
  }

  /** `loadAndFlush`: apply a partial update to a group. */
  method LoadAndFlush(groups: ProductGroupModel, id: int, dto: ProductGroupUpdateDto)
    requires groups.Valid() && id in groups.names
    modifies groups
    ensures groups.Valid()
    ensures groups.names == LoadedNames(old(groups.names), id, dto)
    ensures groups.links == LoadedLinks(old(groups.links), id, dto)
  {
    groups.names := groups.names[id := if dto.name.Some? then dto.name.value else groups.names[id]];
    if dto.products.Some? {
      groups.links := groups.links[id := dto.products.value];
    }
  }

  /** The partial update that puts a snapshot back. */
  function RestoreDto(snapshot: ProductGroupCreateDto): ProductGroupUpdateDto
  {
    ProductGroupUpdateDto(Some(snapshot.name), Some(snapshot.products))
  }

  /** Whatever partial update was applied since, loading the group's snapshot
      back gives the group the full output it had when the snapshot was taken. */
  lemma SnapshotRestoresGroup(names: map<int, string>, links: map<int, seq<int>>, catalog: map<int, string>,
                              id: int, dto: ProductGroupUpdateDto)
    requires id in names
    ensures var snapshot := RollbackOutput(names, links, catalog, id);
      var names', links' := LoadedNames(names, id, dto), LoadedLinks(links, id, dto);
      ToFullOutput(LoadedNames(names', id, RestoreDto(snapshot)), LoadedLinks(links', id, RestoreDto(snapshot)), catalog, id)
        == ToFullOutput(names, links, catalog, id)
  {
    GetProductsIdempotent(LinkedIds(links, id), catalog);
  }

  /** `delete`: log a resettable remove event carrying the snapshot taken
      before the row goes, then delete the group and (ASSUMED cascade) its links. */
  method Delete(groups: ProductGroupModel, log: SystemEventModel, catalog: map<int, string>, authorName: string, id: int)
    requires groups.Valid() && id in groups.names
    modifies groups, log
    ensures groups.Valid()
    ensures log.entries == old(log.entries) + [LogEntry(ProductGroupRemoveEvent(authorName, old(groups.names)[id], id,
      ProductGroupPayload(id, RollbackOutput(old(groups.names), old(groups.links), catalog, id))), true)]
    ensures groups.names == old(groups.names) - {id}
    ensures groups.links == old(groups.links) - {id}
  {
    var snapshot := RollbackOutput(groups.names, groups.links, catalog, id);
    var event := ProductGroupRemoveEvent(authorName, groups.names[id], id, ProductGroupPayload(id, snapshot));
    log.entries := log.entries + [LogEntry(event, true)];
    groups.names := groups.names - {id};
    groups.links := groups.links - {id};
  }
}
