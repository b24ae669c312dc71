/** The product handlers of src/controllers/product.controller.ts over an
    in-memory store: the product, unit and category tables and the set of
    files on disk, by resolved path. An upload has already been written to
    disk by the upload middleware when a handler runs; every handler that
    refuses it deletes it again. `unlink` of a path with no file throws, like
    the file system's. */
module Products {
  import opened Common
  import opened Records
  import opened Paths

  class ProductController {
    var products: map<Id, Product>
    var units: map<Id, Unit>
    var categories: map<Id, Category>
    /** The files on disk, each by its resolved path. */
    var files: set<Path>
    /** The process's working directory, against which paths are resolved. */
    const cwd: Path
    /** The id the store gives the next new product. */
    var nextId: nat

    /** Every stored product has an id below `nextId`, so `nextId` is fresh;
        the working directory is an absolute path. */
    ghost predicate Valid()
      reads this
    {
      && (forall k :: k in products ==> k < nextId)
      && cwd != [] && cwd[0] == '/'
    }

    /** A controller with no products yet, over the given units, categories
        and files. */
    constructor (cwd: Path, units: map<Id, Unit>, categories: map<Id, Category>, files: set<Path>)
      requires cwd != [] && cwd[0] == '/'
      ensures Valid()
      ensures this.cwd == cwd && this.units == units && this.categories == categories
      ensures this.files == files && products == map[]
    {
      this.cwd := cwd;
      this.units := units;
      this.categories := categories;
      this.files := files;
      products := map[];
      nextId := 0;
    }

    /** `unlink(p)`: removes the file `p` resolves to; it fails (the file
        system's ENOENT) when there is no such file. */
    method Unlink(p: Path) returns (ok: bool)
      modifies this`files
      ensures ok == (Resolve(cwd, p) in old(files))
      ensures files == old(files) - {Resolve(cwd, p)}
    {
      ok := Resolve(cwd, p) in files;
      files := files - {Resolve(cwd, p)};
    }

    /** `getProducts`: every product, or 500 when the query throws. */
    method GetProducts(fault: Fault) returns (code: int, all: map<Id, Product>)
      ensures fault.FindFails? ==> code == ServerError && all == map[]
      ensures !fault.FindFails? ==> code == Ok && all == products
    {
      if fault.FindFails? {
        return ServerError, map[];
      }
      return Ok, products;
    }

    /** `getProduct`: 404 when no product has the id, else that product. */
    method GetProduct(id: Id, fault: Fault) returns (code: int, product: Option<Product>)
      ensures fault.FindFails? ==> code == ServerError && product.None?
      ensures !fault.FindFails? && id !in products ==> code == NotFound && product.None?
      ensures !fault.FindFails? && id in products ==> code == Ok && product == Some(products[id])
    {
      if fault.FindFails? {
        return ServerError, None;
      }
      if id !in products {
        return NotFound, None;
      }
      return Ok, Some(products[id]);
    }

    /** `createProduct`: an upload whose extension is not an image's is deleted
        and answered with 400; otherwise the product is saved (`SaveProduct`). */
    method CreateProduct(name: string, details: string, stock: Number, unitPrice: Number,
                         unitName: string, categoryName: string, upload: Upload, fault: Fault)
      returns (code: int, created: Option<Id>)
      requires Valid()
      requires Resolve(cwd, upload.path) in files
      modifies this`products, this`files, this`nextId
      ensures Valid()
      ensures !AcceptedImage(upload.originalName) ==>
        && code == BadRequest && created.None? && products == old(products)
        && files == old(files) - {Resolve(cwd, upload.path)}
      ensures AcceptedImage(upload.originalName) && !fault.NoFault? ==>
        && code == ServerError && created.None? && products == old(products)
        && files == old(files) - {Resolve(cwd, upload.path)}
      ensures AcceptedImage(upload.originalName) && fault.NoFault? ==>
        && code == Created && created.Some? && created.value !in old(products)
        && products == old(products)[created.value :=
             Product(name, details, stock, unitPrice, None, upload.path,
                     UnitRef(units, unitName), CategoryRef(categories, categoryName))]
        && files == old(files)
    {
      var ext := Lower(Extname(upload.originalName));
      if !IsImageExtension(ext) {
        var removed := Unlink(upload.path);
        return BadRequest, None;
      }
      code, created := SaveProduct(name, details, stock, unitPrice, unitName, categoryName, upload, fault);
    }

    /** The part of `createProduct` after the extension test: the unit and
        category are looked up by name (a missing one becomes the empty
        reference) and the product is saved with the upload as its image.
        `FindFails`: a name lookup throws; `WriteFails`: the save throws;
        either way the upload is deleted and the answer is 500. */
    method SaveProduct(name: string, details: string, stock: Number, unitPrice: Number,
                       unitName: string, categoryName: string, upload: Upload, fault: Fault)
      returns (code: int, created: Option<Id>)
      requires Valid()
      modifies this`products, this`files, this`nextId
      ensures Valid()
      ensures !fault.NoFault? ==>
        && code == ServerError && created.None? && products == old(products)
        && files == old(files) - {Resolve(cwd, upload.path)}
      ensures fault.NoFault? ==>
        && code == Created && created.Some? && created.value !in old(products)
        && products == old(products)[created.value :=
             Product(name, details, stock, unitPrice, None, upload.path,
                     UnitRef(units, unitName), CategoryRef(categories, categoryName))]
        && files == old(files)
    {
      if fault.FindFails? {
        var removed := Unlink(upload.path);
        return ServerError, None;
      }
      var unit := UnitRef(units, unitName);
      var category := CategoryRef(categories, categoryName);
      var id := nextId;
      nextId := nextId + 1;
      var product := Product(name, details, stock, unitPrice, None, upload.path, unit, category);
      if fault.WriteFails? {
        var removed := Unlink(upload.path);
        return ServerError, None;
      }
      products := products[id := product];
      return Created, Some(id);
    }

    /** `deleteProduct`: 404 for an unknown id; otherwise the product's image
        file is deleted, then the product. `FindFails`: the `findById` throws;
        `WriteFails`: removing the product throws, after its image is gone. An
        image file that is already missing makes `unlink` throw: 500, and the
        product stays. */
    method DeleteProduct(id: Id, fault: Fault) returns (code: int)
      requires Valid()
      modifies this`products, this`files
      ensures Valid()
      ensures fault.FindFails? ==> code == ServerError && products == old(products) && files == old(files)
      ensures !fault.FindFails? && id !in old(products) ==>
        code == NotFound && products == old(products) && files == old(files)
      ensures !fault.FindFails? && id in old(products) ==>
        var image := Resolve(cwd, old(products)[id].imagePath);
        && (image !in old(files) ==> code == ServerError && products == old(products) && files == old(files))
        && (image in old(files) ==> files == old(files) - {image})
        && (image in old(files) && fault.WriteFails? ==> code == ServerError && products == old(products))
        && (image in old(files) && fault.NoFault? ==> code == Ok && products == old(products) - {id})
    {
      if fault.FindFails? {
        return ServerError;
      }
      if id !in products {
        return NotFound;
      }
      var existPath := Resolve(cwd, products[id].imagePath);
      if existPath == [] {
        // `resolve` never yields an empty path: "image not found" is never answered
        assert false;
      }
      ResolveAbsolute(cwd, products[id].imagePath);
      var removed := Unlink(existPath);
      if !removed {
        return ServerError;
      }
      if fault.WriteFails? {
        return ServerError;
      }
      products := products - {id};
      return Ok;
    }

    /** `updateProduct`: without an upload, 400 before anything else; an upload
        whose extension is not an image's is deleted and answered with 400;
        otherwise the product is replaced (`ReplaceProduct`). */
    method UpdateProduct(id: Id, upload: Option<Upload>, name: string, details: string,
                         stock: Number, unitPrice: Number, unitName: string, categoryName: string,
                         fault: Fault)
      returns (code: int, updated: Option<Product>)
      requires Valid()
      requires upload.Some? ==> Resolve(cwd, upload.value.path) in files
      modifies this`products, this`files
      ensures Valid()
      ensures upload.None? ==>
        code == BadRequest && updated.None? && products == old(products) && files == old(files)
      ensures upload.Some? && !AcceptedImage(upload.value.originalName) ==>
        && code == BadRequest && updated.None? && products == old(products)
        && files == old(files) - {Resolve(cwd, upload.value.path)}
      ensures upload.Some? && AcceptedImage(upload.value.originalName) ==>
        Replaced(old(products), old(files), id, upload.value, name, details, stock, unitPrice,
                 UnitRef(units, unitName), CategoryRef(categories, categoryName), fault,
                 code, updated, products, files)
    {
      if upload.None? {
        return BadRequest, None;
      }
      var file := upload.value;
      var ext := Lower(Extname(file.originalName));
      if !IsImageExtension(ext) {
        var removed := Unlink(file.path);
        return BadRequest, None;
      }
      code, updated := ReplaceProduct(id, file, name, details, stock, unitPrice, unitName, categoryName, fault);
    }

    /** What the part of `updateProduct` after the extension test does, from
        the tables `products0` and `files0` to the answer and the tables
        `products1` and `files1`. The unit and category references are those
        the name lookups found. */
    ghost predicate Replaced(products0: map<Id, Product>, files0: set<Path>, id: Id, file: Upload,
                             name: string, details: string, stock: Number, unitPrice: Number,
                             unit: Ref, category: Ref, fault: Fault,
                             code: int, updated: Option<Product>, products1: map<Id, Product>, files1: set<Path>)
    {
      var temp := Resolve(cwd, file.path);
      && (fault.FindFails? ==>
            code == ServerError && updated.None? && products1 == products0 && files1 == files0 - {temp})
      && (!fault.FindFails? && id !in products0 ==>
            code == NotFound && updated.None? && products1 == products0 && files1 == files0 - {temp})
      && (!fault.FindFails? && id in products0 ==>
            var previous := products0[id];
            var image := Resolve(cwd, previous.imagePath);
            && (image !in files0 ==>
                  code == ServerError && updated.None? && products1 == products0 && files1 == files0 - {temp})
            && (image in files0 && fault.WriteFails? ==>
                  code == ServerError && updated.None? && products1 == products0 && files1 == files0 - {image} - {temp})
            && (image in files0 && fault.NoFault? ==>
                  var product := Product(name, details, stock, unitPrice, previous.comboPrice,
                                         if file.path != [] then file.path else previous.imagePath,
                                         unit, category);
                  code == Ok && updated == Some(product) && products1 == products0[id := product]
                  && files1 == files0 - {image}))
    }

    /** The part of `updateProduct` after the extension test: the unit and
        category are looked up by name and the product by id; an unknown id
        deletes the upload and answers 404. A found product gets the request's
        fields, the upload as its image (when the upload's path is not empty)
        and the looked-up references, keeps its bundle price, and its previous
        image file is deleted before the product is saved. `FindFails`: one of
        the three lookups throws; `WriteFails`: the save throws after the
        previous image is gone. On every 500 the upload is deleted. */
    method ReplaceProduct(id: Id, file: Upload, name: string, details: string,
                          stock: Number, unitPrice: Number, unitName: string, categoryName: string,
                          fault: Fault)
      returns (code: int, updated: Option<Product>)
      requires Valid()
      modifies this`products, this`files
      ensures Valid()
      ensures Replaced(old(products), old(files), id, file, name, details, stock, unitPrice,
                       UnitRef(units, unitName), CategoryRef(categories, categoryName), fault,
                       code, updated, products, files)
    {
      if fault.FindFails? {
        var removed := Unlink(file.path);
        return ServerError, None;
      }
      var unit := UnitRef(units, unitName);
      var category := CategoryRef(categories, categoryName);
      if id !in products {
        var removed := Unlink(file.path);
        return NotFound, None;
      }
      var previous := products[id];
      var product := previous;
      var existPath := Resolve(cwd, product.imagePath);
      if existPath == [] {
        // `resolve` never yields an empty path: "image not found" is never answered
        assert false;
      }
      product := product.(name := name);
      product := product.(details := details);
      product := product.(stock := stock);
      product := product.(unitPrice := unitPrice);
      product := product.(imagePath := if file.path != [] then file.path else product.imagePath);
      product := product.(unitId := unit);
      product := product.(categoryId := category);
      ResolveAbsolute(cwd, previous.imagePath);
      var removedOld := Unlink(existPath);
      if !removedOld {
        var removed := Unlink(file.path);
        return ServerError, None;
      }
      if fault.WriteFails? {
        var removed := Unlink(file.path);
        return ServerError, None;
      }
      products := products[id := product];
      return Ok, Some(product);
    }
  }
}
