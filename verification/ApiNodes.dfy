/** The node of every transition graph: one API, identified by its request method and its normalized route. */
module ApiNodes {

  datatype NodeId = NodeId(verb: string, route: string)
}
