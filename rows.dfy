/** Rows of the `testschema.entities` table as the two access paths see them, and the
    projection of both kinds of row onto the `Dto` that the HTTP endpoints return. */
module Rows {

  /** Java's `long`: the type `ResultSet.getLong` yields for the `id` column. */
  newtype int64 = x: int | -0x8000_0000_0000_0000 <= x < 0x8000_0000_0000_0000

  /** A row read through plain JDBC (a Java record). */
  datatype Entity = Entity(id: int64, name: string, description: string)

  /** The same row as the MyBatis mapper materialises it (a bean with getters). */
  datatype BatisEntity = BatisEntity(id: int64, name: string, description: string)

  /** The element type of both streaming endpoints. */
  datatype Dto = Dto(id: int64, name: string, description: string)

  /** The mapping lambda of `findAllJdbc`. */
  function EntityToDto(x: Entity): Dto {
    Dto(x.id, x.name, x.description)
  }

  /** The mapping lambda of `findAllBatis`. */
  function BatisToDto(x: BatisEntity): Dto {
    Dto(x.id, x.name, x.description)
  }

  /** A JDBC row and a MyBatis row that hold the same column values. */
  predicate SameColumns(e: Entity, b: BatisEntity) {
    e.id == b.id && e.name == b.name && e.description == b.description
  }

  /** Applying a per-element mapping to a stream of rows, as `Flux.map` does:
      one output per input, in the same order. */
  function MapAll<A, B>(f: A -> B, xs: seq<A>): (ys: seq<B>)
    ensures |ys| == |xs|
    ensures forall i :: 0 <= i < |xs| ==> ys[i] == f(xs[i])
  {
    if xs == [] then [] else [f(xs[0])] + MapAll(f, xs[1..])
  }

  /** The projection keeps every column: a `Dto` determines the row it came from. */
  lemma EntityToDtoLosesNothing(x: Entity, y: Entity)
    ensures EntityToDto(x) == EntityToDto(y) <==> x == y
    ensures EntityToDto(x).id == x.id && EntityToDto(x).name == x.name
    ensures EntityToDto(x).description == x.description
  {
  }

  /** The same for the MyBatis projection. */
  lemma BatisToDtoLosesNothing(x: BatisEntity, y: BatisEntity)
    ensures BatisToDto(x) == BatisToDto(y) <==> x == y
    ensures BatisToDto(x).id == x.id && BatisToDto(x).name == x.name
    ensures BatisToDto(x).description == x.description
  {
  }

  /** Both endpoints answer the same `Dto`s, in the same order, for the same table. */
  lemma EndpointsAgree(jdbcRows: seq<Entity>, batisRows: seq<BatisEntity>)
    requires |jdbcRows| == |batisRows|
    requires forall i :: 0 <= i < |jdbcRows| ==> SameColumns(jdbcRows[i], batisRows[i])
    ensures MapAll(EntityToDto, jdbcRows) == MapAll(BatisToDto, batisRows)
  {
  }
}
