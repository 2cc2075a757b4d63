/** The exceptions the planning pipeline raises, one constructor per kind. */
module Errors {

  /** What a `ParseError` complains about. */
  datatype ParseProblem =
    | TopLevelNotMapping(key: string)
    | NeitherImageNorGroup(key: string)
    | UnknownImageField(imageId: string, field: string)
    | UnknownBuildField(imageId: string, field: string)
    | MissingContext(imageId: string)
    | LacksImages(groupId: string)
    | ImagesNotList(groupId: string)
    | ArchitecturesNotList(groupId: string)
    | ParametersNotMapping(groupId: string)
    | InvalidArchitecture(groupId: string)
    | NoImages(groupId: string)
    | UnknownGroupField(groupId: string, field: string)

  datatype Error =
    | ParseError(problem: ParseProblem)
      /** a value that is not a string reached `re.findall` or `len` */
    | TypeError
      /** a dictionary lookup of a key that is not there */
    | KeyError(key: string)
      /** an attribute used on a value that does not have it */
    | AttributeError
      /** `BindChain.argument_value` found no link supplying `name` */
    | MissingArgument(name: string, sources: seq<string>)
      /** `Config.partial_config` was asked for an id it does not have */
    | UnknownId(id: string)
      /** `Config.bind` on a config with more than one group */
    | MultipleGroups
      /** `IdResolver.resolve` called a second time */
    | AlreadyResolved(id: string)
      /** `graphlib` found a dependency cycle */
    | CycleError
}
