/** The movie record both components receive from the metadata service. */
module Movies {

  /**
   * A movie as the metadata service describes it. Only the fields the two
   * components read are kept; `vote_average` (a float) is not modelled.
   */
  datatype Movie = Movie(id: int, title: string, posterPath: string, releaseDate: string)
}
