/** A billable project of an invoice month, as the invoice page and the project editor share it (ProjectCard.tsx). */
module Projects {

  datatype Project = Project(id: int, name: string, projectType: string, amount: int, images: seq<string>)
}
