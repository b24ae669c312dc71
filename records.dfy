/** The documents of the store and the by-field lookups (`findOne`) the
    controllers and the role gate perform on them. Tables keyed by id are
    maps; the line-item table is a sequence in insertion order. */
module Records {
  import opened Common

  type Path = string

  /** A user account (src/models/User.ts). Only the fields this core reads
      are kept; `rolId` is the reference to the user's role. */
  datatype User = User(ci: string, email: string, name: string, rolId: Id)

  /** A role (src/models/Rol.ts); `typeUser == 1` marks a staff role. */
  datatype Role = Role(name: string, typeUser: int)

  /** An order header (src/models/Order.ts). */
  datatype Order = Order(address: string, neigh: string, state: string, total: Number, clientId: Id)

  /** A line item joining an order and a product (src/models/ProductToOrder.ts).
      The quantity is optional because an upserted line item is created
      without one. */
  datatype LineItem = LineItem(orderId: Id, productId: Id, quantity: Option<Number>)

  /** One entry of a request's `details` list, with every field a client may
      send: order creation reads `productId` and `quantity`, order update reads
      `orderId` and `productId`. */
  datatype Detail = Detail(orderId: Id, productId: Id, quantity: Number)

  datatype Unit = Unit(name: string, symbol: string)

  datatype Category = Category(name: string)

  /** A reference to a unit or category document, or the empty string a
      product is given when the name lookup found nothing. */
  datatype Ref = Blank | RefTo(id: Id)

  /** A product (src/models/Product.ts). */
  datatype Product = Product(
    name: string,
    details: string,
    stock: Number,
    unitPrice: Number,
    comboPrice: Option<Number>,
    imagePath: Path,
    unitId: Ref,
    categoryId: Ref)

  /** The file the upload middleware stored before the handler runs: where it
      was written and the name the client gave it. */
  datatype Upload = Upload(path: Path, originalName: string)

  /** `User.findOne({ci})`: the first user whose civil ID is `ci`. */
  function FindUserByCi(users: map<Id, User>, ci: string): (r: Option<Id>)
    ensures r.None? <==> forall k :: k in users ==> users[k].ci != ci
    ensures r.Some? ==> r.value in users && users[r.value].ci == ci
    ensures r.Some? ==> forall k :: k in users && users[k].ci == ci ==> r.value <= k
  {
    var s := set k | k in users && users[k].ci == ci;
    assert forall k :: k in s <==> k in users && users[k].ci == ci;
    Least(s)
  }

  /** `Rol.findOne({type_user: 1, name})`: the first staff role called `name`.
      A role with that name but another `type_user` is not a match. */
  function FindStaffRole(roles: map<Id, Role>, name: string): (r: Option<Id>)
    ensures r.None? <==> forall k :: k in roles ==> roles[k].typeUser != 1 || roles[k].name != name
    ensures r.Some? ==> r.value in roles && roles[r.value].typeUser == 1 && roles[r.value].name == name
    ensures r.Some? ==> forall k :: k in roles && roles[k].typeUser == 1 && roles[k].name == name ==> r.value <= k
  {
    var s := set k | k in roles && roles[k].typeUser == 1 && roles[k].name == name;
    assert forall k :: k in s <==> k in roles && roles[k].typeUser == 1 && roles[k].name == name;
    Least(s)
  }

  /** `findOne({name})` on a table of named documents, given as the map from
      each id to its name, turned into a reference: the empty reference when
      no document has the name, else the first document with it. */
  function NamedRef(names: map<Id, string>, name: string): (r: Ref)
    ensures r.Blank? <==> forall k :: k in names ==> names[k] != name
    ensures r.RefTo? ==> r.id in names && names[r.id] == name
    ensures r.RefTo? ==> forall k :: k in names && names[k] == name ==> r.id <= k
  {
    var s := set k | k in names && names[k] == name;
    assert forall k :: k in s <==> k in names && names[k] == name;
    match Least(s)
    case None => Blank
    case Some(k) => RefTo(k)
  }

  /** `unit ? unit._id : ""` after `Unit.findOne({name})`. */
  function UnitRef(units: map<Id, Unit>, name: string): Ref {
    NamedRef(map k | k in units :: units[k].name, name)
  }

  /** `category ? category._id : ""` after `Category.findOne({name})`. */
  function CategoryRef(categories: map<Id, Category>, name: string): Ref {
    NamedRef(map k | k in categories :: categories[k].name, name)
  }
}
