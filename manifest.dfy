/**
 The part of the application manifest model that the dev-mode core reads:
 each component has a name and kind-specific properties holding an image
 reference. Manifest parsing itself is not part of this model.
 */
module Manifest {

  /** `Properties::Actor { .. }` / `Properties::Capability { .. }`: only the image is read. */
  datatype Properties =
    | ActorComponent(image: string)
    | CapabilityComponent(image: string)
  {
    function Image(): string
    {
      match this
      case ActorComponent(image) => image
      case CapabilityComponent(image) => image
    }
  }

  datatype Component = Component(name: string, properties: Properties)

  /** The `spec.components` list of a parsed manifest. */
  datatype Manifest = Manifest(name: string, components: seq<Component>)
}
