/** The device's capability table by the names descriptors use
    (`FORMAT_KIND`, `DEVICE_CAPABILITIES` and `_value_allowed`,
    keepkeylib/erc7730_compiler.py): which format a kind stands for, which
    parameter a role, and what the device takes for each. */
module Capabilities {
  import opened AbiTypes
  import opened DeviceRules

  datatype Format =
    | RawFormat
    | AmountFormat
    | TokenFormat
    | NftFormat
    | DateFormat
    | DurationFormat
    | UnitFormat
    | EnumFormat
    | ChainFormat
    | AddressFormat
    | TickerFormat
    | InteroperableFormat
    | CalldataFormat
    | EncryptedFormat
  {
    /** What a descriptor calls it. */
    function Name(): string {
      match this
      case RawFormat => "raw"
      case AmountFormat => "amount"
      case TokenFormat => "tokenAmount"
      case NftFormat => "nftName"
      case DateFormat => "date"
      case DurationFormat => "duration"
      case UnitFormat => "unit"
      case EnumFormat => "enum"
      case ChainFormat => "chainId"
      case AddressFormat => "addressName"
      case TickerFormat => "tokenTicker"
      case InteroperableFormat => "interoperableAddress"
      case CalldataFormat => "calldata"
      case EncryptedFormat => "encrypted"
    }

    /** What a program calls it. */
    function Number(): nat {
      match this
      case RawFormat => 1
      case AmountFormat => 2
      case TokenFormat => 3
      case NftFormat => 4
      case DateFormat => 5
      case DurationFormat => 6
      case UnitFormat => 7
      case EnumFormat => 8
      case ChainFormat => 9
      case AddressFormat => 10
      case TickerFormat => 11
      case InteroperableFormat => 12
      case CalldataFormat => 13
      case EncryptedFormat => 14
    }

    /** The formats the device knows how to show. */
    predicate Executed() {
      !(ChainFormat? || TickerFormat? || InteroperableFormat? || EncryptedFormat?)
    }

    /** What it cannot be shown without. */
    predicate Needs(q: Parameter) {
      match q
      case ValueParameter => true
      case TokenParameter => TokenFormat?
      case CollectionParameter => NftFormat?
      case BaseParameter => UnitFormat?
      case LabelsParameter => EnumFormat?
      case CalleeParameter => CalldataFormat?
      case _ => false
    }

    /** Where the device lets a parameter come from, none if nowhere. */
    function From(q: Parameter): set<Origin> {
      match q
      case ValueParameter => {InPath}
      case TokenParameter => if TokenFormat? then {InPath} else {}
      case CollectionParameter => if NftFormat? then {InPath} else {}
      case DecimalsParameter => if UnitFormat? then {InLiteral} else {}
      case BaseParameter => if UnitFormat? then {InText} else {}
      case PrefixParameter => if UnitFormat? then {InLiteral} else {}
      case ThresholdParameter => if TokenFormat? then {InLiteral} else {}
      case MessageParameter => if TokenFormat? then {InText} else {}
      case EncodingParameter => if DateFormat? then {InText} else {}
      case LabelsParameter => if EnumFormat? then {InLiteral} else {}
      case ChainParameter => {}
      case CalleeParameter => if CalldataFormat? then {InPath} else {}
      case AmountParameter => if CalldataFormat? then {InPath} else {}
      case SpenderParameter => if CalldataFormat? then {InPath} else {}
      case AliasesParameter => if TokenFormat? then {InLiteral} else {}
    }

    /** The classes of value the device takes for a parameter: an address where
        somebody is named, an unsigned integer where an amount or a time is
        meant. */
    function Takes(q: Parameter): set<nat> {
      match q
      case ValueParameter => Shows()
      case TokenParameter => if TokenFormat? then {ADDRESS} else {}
      case CollectionParameter => if NftFormat? then {ADDRESS} else {}
      case DecimalsParameter => if UnitFormat? then {UINT_SMALL} else {}
      case BaseParameter => if UnitFormat? then {STRING, DATE_ENCODING} else {}
      case PrefixParameter => if UnitFormat? then {FLAG} else {}
      case ThresholdParameter => if TokenFormat? then {UINT, UINT_SMALL} else {}
      case MessageParameter => if TokenFormat? then {STRING, DATE_ENCODING} else {}
      case EncodingParameter => if DateFormat? then {DATE_ENCODING} else {}
      case LabelsParameter => if EnumFormat? then {ENUM_MAP} else {}
      case ChainParameter => {}
      case CalleeParameter => if CalldataFormat? then {ADDRESS} else {}
      case AmountParameter => if CalldataFormat? then {UINT} else {}
      case SpenderParameter => if CalldataFormat? then {ADDRESS} else {}
      case AliasesParameter => if TokenFormat? then {ALIAS_SET} else {}
    }

    /** The classes of value it shows. */
    function Shows(): set<nat> {
      match this
      case RawFormat => {UINT, INT, ADDRESS, BOOL, FIXED_BYTES, BYTES, STRING, STRING_REF, UINT_SMALL}
      case AmountFormat => {UINT}
      case TokenFormat => {UINT}
      case NftFormat => {UINT}
      case DateFormat => {UINT}
      case DurationFormat => {UINT}
      case UnitFormat => {UINT}
      case EnumFormat => {UINT, INT, BOOL}
      case AddressFormat => {ADDRESS}
      case CalldataFormat => {BYTES}
      case _ => {}
    }
  }

  datatype Parameter =
    | ValueParameter
    | TokenParameter
    | CollectionParameter
    | DecimalsParameter
    | BaseParameter
    | PrefixParameter
    | ThresholdParameter
    | MessageParameter
    | EncodingParameter
    | LabelsParameter
    | ChainParameter
    | CalleeParameter
    | AmountParameter
    | SpenderParameter
    | AliasesParameter
  {
    /** The role a program gives it. */
    function Role(): nat {
      match this
      case ValueParameter => 1
      case TokenParameter => 2
      case CollectionParameter => 3
      case DecimalsParameter => 4
      case BaseParameter => 5
      case PrefixParameter => 6
      case ThresholdParameter => 7
      case MessageParameter => 8
      case EncodingParameter => 9
      case LabelsParameter => 10
      case ChainParameter => 11
      case CalleeParameter => 15
      case AmountParameter => 17
      case SpenderParameter => 18
      case AliasesParameter => 22
    }
  }

  datatype Origin = InPath | InLiteral | InText {
    function Source(): nat {
      match this
      case InPath => 1
      case InLiteral => 2
      case InText => 3
    }
  }

  /** No two parameters share a role. */
  lemma RoleDistinct(q: Parameter, q': Parameter)
    ensures q.Role() == q'.Role() ==> q == q'
  {
  }

  /** The kinds the device executes are those of the formats it can show. */
  lemma KnownKindIff(kind: nat)
    ensures KnownKind(kind) <==> exists f: Format :: f.Number() == kind && f.Executed()
  {
    var all := [RawFormat, AmountFormat, TokenFormat, NftFormat, DateFormat, DurationFormat, UnitFormat, EnumFormat,
                AddressFormat, CalldataFormat];
    if KnownKind(kind) {
      var f := all[if kind <= 8 then kind - 1 else if kind == 10 then 8 else 9];
      assert f.Number() == kind && f.Executed();
    }
  }

  /** A class of value is permitted for a role exactly when the format takes it
      for the parameter. */
  lemma ValueAllowedIff(f: Format, q: Parameter, cls: nat)
    requires f.Executed()
    ensures ValueAllowed(f.Number(), q.Role(), cls) <==> cls in f.Takes(q)
  {
  }

  /** The format behind a kind takes the class for the parameter behind a role. */
  ghost predicate Taken(kind: nat, role: nat, cls: nat) {
    exists f: Format, q: Parameter :: TakenFor(f, q, kind, role, cls)
  }

  predicate TakenFor(f: Format, q: Parameter, kind: nat, role: nat, cls: nat) {
    f.Executed() && f.Number() == kind && q.Role() == role && cls in f.Takes(q)
  }

  lemma AllowedIsTaken(kind: nat, role: nat, cls: nat)
    requires KnownKind(kind) && ValueAllowed(kind, role, cls)
    ensures Taken(kind, role, cls)
  {
    hide ValueAllowed, KnownKind;
    KnownKindIff(kind);
    var f: Format :| f.Number() == kind && f.Executed();
    if forall q: Parameter :: q.Role() != role {
      OtherRoles(kind, role, cls);
    }
    var q: Parameter :| q.Role() == role;
    ValueAllowedIff(f, q, cls);
    assert TakenFor(f, q, kind, role, cls);
  }

  /** The sources listed for a role are where the parameter may come from. */
  lemma SourcesAre(f: Format, q: Parameter, origin: Origin)
    requires f.Executed()
    ensures origin.Source() in Sources(f.Number(), q.Role()) <==> origin in f.From(q)
  {
  }

  /** The roles a kind requires are those of what its format needs. */
  lemma RequiredAre(f: Format, role: nat)
    requires f.Executed()
    ensures role in Required(f.Number()) <==> exists q: Parameter :: q.Role() == role && f.Needs(q)
  {
    if role in Required(f.Number()) {
      var q := if role == 1 then ValueParameter else if role == 2 then TokenParameter else if role == 3 then
        CollectionParameter else if role == 5 then BaseParameter else if role == 10 then LabelsParameter
      else CalleeParameter;
      assert q.Role() == role && f.Needs(q);
    }
  }

  /** Nothing is permitted for a role that is no parameter's. */
  lemma OtherRoles(kind: nat, role: nat, cls: nat)
    requires KnownKind(kind) && forall q: Parameter :: q.Role() != role
    ensures !ValueAllowed(kind, role, cls) && Sources(kind, role) == {}
  {
    assert ValueParameter.Role() == 1 && TokenParameter.Role() == 2 && CollectionParameter.Role() == 3;
    assert DecimalsParameter.Role() == 4 && BaseParameter.Role() == 5 && PrefixParameter.Role() == 6;
    assert ThresholdParameter.Role() == 7 && MessageParameter.Role() == 8 && EncodingParameter.Role() == 9;
    assert LabelsParameter.Role() == 10 && CalleeParameter.Role() == 15 && AmountParameter.Role() == 17;
    assert SpenderParameter.Role() == 18 && AliasesParameter.Role() == 22;
  }
}
