/** What a budget can be set for. */
module Entities {
  datatype EntityType = User | Group | Project | Application

  datatype Entity = Entity(level: EntityType, id: string)
}
