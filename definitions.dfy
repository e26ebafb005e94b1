/**
 * The mutable definition objects ClassBuilder and EnumBuilder consume
 * (ExcelMaster.Definitions). Every property has a public setter, so each is
 * a class with one field per property. A `List<T>` property is a `seq`
 * field: copying a list into a new one is copying the sequence.
 * An optional constructor argument is None where the caller passes null.
 */
module Definitions {
  import opened Outcomes

  class PropertyDefinition {
    var attributes: seq<string>
    var name: string
    var typeName: string

    /** new PropertyDefinition(): empty name, type and attributes. */
    constructor Empty()
      ensures attributes == [] && name == "" && typeName == ""
    {
      attributes := [];
      name := "";
      typeName := "";
    }

    /** new PropertyDefinition(name, type, attributes): null attributes leave the list empty. */
    constructor (name: string, typeName: string, attributes: Option<seq<string>>)
      ensures this.name == name && this.typeName == typeName
      ensures attributes.None? ==> this.attributes == []
      ensures attributes.Some? ==> this.attributes == attributes.value
    {
      this.name := name;
      this.typeName := typeName;
      this.attributes := if attributes.Some? then attributes.value else [];
    }
  }

  class EnumMemberDefinition {
    var attributes: seq<string>
    var name: string
    var value: string

    /** new EnumMemberDefinition(): empty name, value and attributes. */
    constructor Empty()
      ensures attributes == [] && name == "" && value == ""
    {
      attributes := [];
      name := "";
      value := "";
    }

    /** new EnumMemberDefinition(name, value, attributes): null attributes leave the list empty. */
    constructor (name: string, value: string, attributes: Option<seq<string>>)
      ensures this.name == name && this.value == value
      ensures attributes.None? ==> this.attributes == []
      ensures attributes.Some? ==> this.attributes == attributes.value
    {
      this.name := name;
      this.value := value;
      this.attributes := if attributes.Some? then attributes.value else [];
    }
  }

  class ClassDefinition {
    var usingNamespaces: seq<string>
    var namespace: string
    var name: string
    var attributes: seq<string>
    var fields: seq<PropertyDefinition>

    /** new ClassDefinition(): empty strings and empty lists. */
    constructor Empty()
      ensures usingNamespaces == [] && namespace == "" && name == "" && attributes == [] && fields == []
    {
      usingNamespaces := [];
      namespace := "";
      name := "";
      attributes := [];
      fields := [];
    }

    /** new ClassDefinition(namespace, name, usings, attributes, fields): a null list stays empty. */
    constructor (namespace: string, name: string, usingNamespaces: Option<seq<string>>,
                 attributes: Option<seq<string>>, fields: Option<seq<PropertyDefinition>>)
      ensures this.namespace == namespace && this.name == name
      ensures this.usingNamespaces == (if usingNamespaces.Some? then usingNamespaces.value else [])
      ensures this.attributes == (if attributes.Some? then attributes.value else [])
      ensures this.fields == (if fields.Some? then fields.value else [])
    {
      this.namespace := namespace;
      this.name := name;
      this.usingNamespaces := [];
      this.attributes := [];
      this.fields := [];
      if usingNamespaces.Some? {
        this.usingNamespaces := usingNamespaces.value;
      }
      if attributes.Some? {
        this.attributes := attributes.value;
      }
      if fields.Some? {
        this.fields := fields.value;
      }
    }
  }

  class EnumDefinition {
    var usingNamespaces: seq<string>
    var namespace: string
    var attributes: seq<string>
    var name: string
    var members: seq<EnumMemberDefinition>

    /** new EnumDefinition(): empty strings and empty lists. */
    constructor Empty()
      ensures usingNamespaces == [] && namespace == "" && attributes == [] && name == "" && members == []
    {
      usingNamespaces := [];
      namespace := "";
      attributes := [];
      name := "";
      members := [];
    }

    /** new EnumDefinition(namespace, name, usings, attributes, members): a null list stays empty. */
    constructor (namespace: string, name: string, usingNamespaces: Option<seq<string>>,
                 attributes: Option<seq<string>>, members: Option<seq<EnumMemberDefinition>>)
      ensures this.namespace == namespace && this.name == name
      ensures this.usingNamespaces == (if usingNamespaces.Some? then usingNamespaces.value else [])
      ensures this.attributes == (if attributes.Some? then attributes.value else [])
      ensures this.members == (if members.Some? then members.value else [])
    {
      this.namespace := namespace;
      this.name := name;
      this.usingNamespaces := [];
      this.attributes := [];
      this.members := [];
      if usingNamespaces.Some? {
        this.usingNamespaces := usingNamespaces.value;
      }
      if attributes.Some? {
        this.attributes := attributes.value;
      }
      if members.Some? {
        this.members := members.value;
      }
    }
  }
}
