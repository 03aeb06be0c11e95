/**
 * Identifier resolution: the demo form lets a user pick a product by IUPAC
 * name, CAS number or SMILES string, and translates the last two into the
 * IUPAC name that keys the reaction table, through a fixed table.
 */
module Identifiers {
  import opened Wrappers

  /** The three choices of the form's "Search by" selector. */
  datatype Scheme = IupacName | CasNumber | Smiles
  {
    /** The selector's label, which is also the scheme's key in the mapping. */
    function Label(): string
    {
      match this
      case IupacName => "IUPAC name"
      case CasNumber => "CAS number"
      case Smiles => "SMILES"
    }
  }

  /** Scheme label -> (identifier -> IUPAC name). */
  type Mapping = map<string, map<string, string>>

  const ProductMapping: Mapping := map[
    "CAS number" := map[
      "119-61-9" := "Diphenyl ketone",
      "134-81-6" := "Diphenylethanedione",
      "486-25-9" := "9H-Fluoren-9-one",
      "576-26-1" := "2,6-Dimethylphenol",
      "92-93-3" := "4-Nitrobiphenyl"
    ],
    "SMILES" := map[
      "O=C(C1CCCCC1)C2CCCCC2" := "Diphenyl ketone",
      "O=C(C1CCCCC1)C(=O)C2CCCCC2" := "Diphenylethanedione",
      "O=C1C2CCCCC2C3CCCCC13" := "9H-Fluoren-9-one",
      "CC1CCCC(C)C1O" := "2,6-Dimethylphenol",
      "[O-][N+](=O)C1CCC(CC1)C2CCCCC2" := "4-Nitrobiphenyl"
    ]
  ]

  /** The five IUPAC names the fixed mapping translates to. */
  const CanonicalNames: set<string> := {
    "Diphenyl ketone",
    "Diphenylethanedione",
    "9H-Fluoren-9-one",
    "2,6-Dimethylphenol",
    "4-Nitrobiphenyl"
  }

  /** Python's `KeyError(key)` from a dictionary lookup that found nothing. */
  datatype ResolveError = KeyError(key: string)

  /**
   * The product name the form filters by: the selected value itself for
   * "IUPAC name", otherwise `mapping[scheme][value]`, which raises for an
   * unknown scheme or identifier.
   */
  function Resolve(mapping: Mapping, scheme: Scheme, value: string): (r: Result<string, ResolveError>)
    ensures scheme == IupacName ==> r == Success(value)
    ensures scheme != IupacName ==>
      (r.Success? <==> scheme.Label() in mapping && value in mapping[scheme.Label()])
    ensures scheme != IupacName && r.Success? ==> r.value == mapping[scheme.Label()][value]
    ensures r.Failure? ==>
      r.error == KeyError(if scheme.Label() in mapping then value else scheme.Label())
  {
    if scheme == IupacName then Success(value)
    else if scheme.Label() !in mapping then Failure(KeyError(scheme.Label()))
    else if value !in mapping[scheme.Label()] then Failure(KeyError(value))
    else Success(mapping[scheme.Label()][value])
  }

  /** Every identifier of `table` translates to some name, and no two identifiers to the same one. */
  predicate OneToOne(table: map<string, string>, names: set<string>)
  {
    && table.Values == names
    && forall x, y | x in table && y in table && x != y :: table[x] != table[y]
  }

  /**
   * Both alternative schemes of the fixed mapping are one-to-one onto the
   * same five IUPAC names.
   */
  lemma ProductMappingOneToOne()
    ensures "CAS number" in ProductMapping && "SMILES" in ProductMapping
    ensures OneToOne(ProductMapping["CAS number"], CanonicalNames)
    ensures OneToOne(ProductMapping["SMILES"], CanonicalNames)
  {
    CasNumbersOneToOne();
    SmilesOneToOne();
  }

  lemma CasNumbersOneToOne()
    ensures OneToOne(ProductMapping["CAS number"], CanonicalNames)
  {
    var cas := ProductMapping["CAS number"];
    assert cas["119-61-9"] in cas.Values && cas["134-81-6"] in cas.Values;
    assert cas["486-25-9"] in cas.Values && cas["576-26-1"] in cas.Values;
    assert cas["92-93-3"] in cas.Values;
    forall v | v in cas.Values
      ensures v in CanonicalNames
    {
      var id :| id in cas && cas[id] == v;
    }
  }

  lemma SmilesOneToOne()
    ensures OneToOne(ProductMapping["SMILES"], CanonicalNames)
  {
    var smiles := ProductMapping["SMILES"];
    assert smiles["O=C(C1CCCCC1)C2CCCCC2"] in smiles.Values;
    assert smiles["O=C(C1CCCCC1)C(=O)C2CCCCC2"] in smiles.Values;
    assert smiles["O=C1C2CCCCC2C3CCCCC13"] in smiles.Values;
    assert smiles["CC1CCCC(C)C1O"] in smiles.Values;
    assert smiles["[O-][N+](=O)C1CCC(CC1)C2CCCCC2"] in smiles.Values;
    forall v | v in smiles.Values
      ensures v in CanonicalNames
    {
      var id :| id in smiles && smiles[id] == v;
    }
  }

  /**
   * With the fixed mapping, resolution fails exactly on an identifier the
   * scheme's table does not list, and otherwise yields the name the table
   * gives it, one of the five names.
   */
  lemma ResolveProductMapping(scheme: Scheme, value: string)
    requires scheme != IupacName
    ensures Resolve(ProductMapping, scheme, value).Success? <==> value in ProductMapping[scheme.Label()]
    ensures Resolve(ProductMapping, scheme, value).Failure? ==>
      Resolve(ProductMapping, scheme, value).error == KeyError(value)
    ensures Resolve(ProductMapping, scheme, value).Success? ==>
      && Resolve(ProductMapping, scheme, value).value == ProductMapping[scheme.Label()][value]
      && Resolve(ProductMapping, scheme, value).value in CanonicalNames
  {
    ProductMappingOneToOne();
  }

  /** CAS number 119-61-9 is benzophenone, listed as "Diphenyl ketone". */
  lemma ResolveExample()
    ensures Resolve(ProductMapping, CasNumber, "119-61-9") == Success("Diphenyl ketone")
    ensures Resolve(ProductMapping, Smiles, "CC1CCCC(C)C1O") == Success("2,6-Dimethylphenol")
    ensures Resolve(ProductMapping, IupacName, "4-Nitrobiphenyl") == Success("4-Nitrobiphenyl")
    ensures Resolve(ProductMapping, CasNumber, "50-00-0") == Failure(KeyError("50-00-0"))
  {
  }

  /** Every one of the five names is reached from exactly one identifier in each alternative scheme. */
  lemma EachNameHasOneIdentifier(scheme: Scheme, name: string)
    requires scheme != IupacName && name in CanonicalNames
    ensures exists id :: Resolve(ProductMapping, scheme, id) == Success(name)
    ensures forall id, id' ::
      (Resolve(ProductMapping, scheme, id) == Success(name) &&
       Resolve(ProductMapping, scheme, id') == Success(name)) ==> id == id'
  {
    ProductMappingOneToOne();
    var table := ProductMapping[scheme.Label()];
    assert name in table.Values;
    var id :| id in table && table[id] == name;
    assert Resolve(ProductMapping, scheme, id) == Success(name);
  }
}
