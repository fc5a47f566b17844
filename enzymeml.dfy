/**
 * The parts of an EnzymeML document that the suite's commands read and
 * write: species (small molecules, proteins, complexes), vessels,
 * reactions with their kinetic laws, equations, parameters,
 * measurements and creators. Floating-point quantities are `real`.
 */
module EnzymeML {
  import opened Wrappers

  /** SI prefix of a unit factor (`_`, `m`, `u`, `n`, `p` in the unit macro). */
  datatype Prefix = NoPrefix | Milli | Micro | Nano | Pico

  datatype BaseUnit = Litre | Gram | Day | Hours | Minutes | Second | Mole | Kelvin

  /** One bracketed factor of the unit macro, such as `[m litre]`. */
  datatype Factor = Factor(prefix: Prefix, base: BaseUnit)

  /** A unit as the macro writes it: a factor, optionally divided by another. */
  datatype UnitExpr = UnitExpr(numerator: Factor, denominator: Option<Factor>)

  /** A unit definition with the display name the library attaches to it. */
  datatype UnitDefinition = UnitDefinition(name: Option<string>, expr: UnitExpr)

  datatype SmallMolecule = SmallMolecule(
    id: string, name: string, constant: bool,
    canonicalSmiles: Option<string>, inchi: Option<string>, inchikey: Option<string>,
    references: seq<string>)

  datatype Protein = Protein(
    id: string, name: string, constant: bool,
    sequence: Option<string>, ecnumber: Option<string>,
    organism: Option<string>, organismTaxId: Option<string>)

  datatype Complex = Complex(id: string, name: string, constant: bool)

  datatype Vessel = Vessel(id: string, name: string, volume: real, unit: UnitDefinition, constant: bool)

  datatype Creator = Creator(givenName: string, familyName: string, mail: string)

  /** `RateLaw` is the kind the front end gives kinetic laws. */
  datatype EquationType = Ode | Assignment | InitialAssignment | RateLaw

  /** An equation is keyed by the species it defines. */
  datatype Equation = Equation(speciesId: string, equation: string, equationType: EquationType)

  datatype ReactionElement = ReactionElement(speciesId: string, stoichiometry: real)

  datatype Reaction = Reaction(
    id: string, name: string, reversible: bool,
    reactants: seq<ReactionElement>, products: seq<ReactionElement>,
    kineticLaw: Option<Equation>)

  datatype Parameter = Parameter(
    id: string, name: string, symbol: string,
    value: Option<real>, initialValue: Option<real>,
    lowerBound: Option<real>, upperBound: Option<real>)

  datatype MeasurementData = MeasurementData(speciesId: string, time: seq<real>, data: seq<real>)

  datatype Measurement = Measurement(id: string, name: string, speciesData: seq<MeasurementData>)

  datatype Document = Document(
    name: string,
    creators: seq<Creator>,
    vessels: seq<Vessel>,
    proteins: seq<Protein>,
    complexes: seq<Complex>,
    smallMolecules: seq<SmallMolecule>,
    reactions: seq<Reaction>,
    measurements: seq<Measurement>,
    equations: seq<Equation>,
    parameters: seq<Parameter>)

  /** The document the builder produces when only a name is given. */
  function EmptyDocument(name: string): (d: Document)
    ensures d.name == name
    ensures d.smallMolecules == [] && d.proteins == [] && d.complexes == []
    ensures d.reactions == [] && d.equations == [] && d.parameters == []
  {
    Document(name, [], [], [], [], [], [], [], [], [])
  }

  /** The identifiers of a list of parameters, in order. */
  function ParameterIds(ps: seq<Parameter>): (ids: seq<string>)
    ensures |ids| == |ps|
    ensures forall i :: 0 <= i < |ps| ==> ids[i] == ps[i].id
  {
    seq(|ps|, i requires 0 <= i < |ps| => ps[i].id)
  }
}
