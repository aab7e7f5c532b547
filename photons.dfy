/** Photon packets: the entity that PhotonSource creates and re-emits. */
module Photons {

  /** A point or direction in three-dimensional space. */
  datatype Vec3 = Vec3(x: real, y: real, z: real)

  /** The type tag of a photon packet. */
  datatype PhotonType = Primary | DiffuseHI | DiffuseHeI | Absorbed

  /** The number of ions for which a photon carries a cross section.  The
      ions are numbered 0 .. NumberOfIons - 1; only neutral hydrogen and
      neutral helium are named by the code modelled here. */
  const NumberOfIons: nat := 12
  const IonHn: nat := 0
  const IonHen: nat := 1

  /** A photon packet.  Its cross sections are a fixed-size buffer with one
      entry per ion, updated in place. */
  class Photon {
    var position: Vec3
    var direction: Vec3
    var energy: real
    var weight: real
    var photonType: PhotonType
    const crossSections: array<real>
    var crossSectionHeCorr: real

    ghost predicate Valid()
      reads this
    {
      crossSections.Length == NumberOfIons
    }

    constructor (position: Vec3, direction: Vec3, energy: real)
      ensures Valid() && fresh(crossSections)
      ensures this.position == position && this.direction == direction
      ensures this.energy == energy && photonType == Primary && weight == 1.0
    {
      this.position := position;
      this.direction := direction;
      this.energy := energy;
      weight := 1.0;
      photonType := Primary;
      crossSections := new real[NumberOfIons];
      crossSectionHeCorr := 0.0;
    }
  }
}
